/** The coordinator, any number of joiners and a network that may replay, drop and invent
    messages. The network cannot form a MAC under a code it does not hold. */
module Agreement {
  import opened Terms
  import opened Messages
  import opened PairerModel
  import opened PairerSteps
  import opened PairerSafety
  import opened PairerOutcomes
  import opened Joining
  import Der
  import Pki
  import Labels

  /** A call of Join; `accepted` is the reply it returned success on. */
  datatype JoinRun = JoinRun(joiner: Joiner, accepted: Option<CompleteReply>)

  /** `secret` are the codes that the network does not hold, so far. */
  datatype World = World(pairer: State, joins: map<nat, JoinRun>, wire: set<Tag>, secret: set<string>)

  datatype Move =
    | Coordinate(step: Step)
    | Start(j: nat, joiner: Joiner)
    | Accept(j: nat, reply: CompleteReply, peer: Option<Certificate>, addr: string, now: Time, later: Time)
    | Leak(code: string)

  /** Tags the network can present: those seen before, those under codes it holds, and junk. */
  predicate Known(secret: set<string>, wire: set<Tag>, tag: Tag)
  {
    tag in wire || !(tag.Hmac? && tag.key.code in secret)
  }

  ghost predicate CanMove(w: World, move: Move)
  {
    match move
    case Coordinate(step) =>
      Enabled(w.pairer, step) && (step.Admit? ==> Known(w.secret, w.wire, step.tag))
    case Start(j, joiner) =>
      j !in w.joins && Started(joiner) && (forall k | k in w.joins :: w.joins[k].joiner.key != joiner.key)
    case Accept(j, reply, peer, addr, now, later) =>
      && j in w.joins && w.joins[j].accepted.None?
      && Known(w.secret, w.wire, reply.serverMac)
      && JoinFinish(w.joins[j].joiner, reply, peer, addr, now, later).Ok?
    case Leak(_) => true
  }

  /** The server MAC that a step sends out, if it sends one. */
  function Sent(h: seq<Event>, h': seq<Event>): set<Tag>
  {
    if |h| < |h'| && h'[|h'| - 1].Certified? then {h'[|h'| - 1].bundle.serverMac} else {}
  }

  ghost function Moved(cfg: Config, w: World, move: Move): World
    requires move.Coordinate? ==> Enabled(w.pairer, move.step)
    requires move.Accept? ==> move.j in w.joins
  {
    match move
    case Coordinate(step) =>
      var t := Apply(cfg, w.pairer, step);
      w.(pairer := t, wire := w.wire + Sent(w.pairer.history, t.history))
    case Start(j, joiner) =>
      w.(joins := w.joins[j := JoinRun(joiner, None)], wire := w.wire + {JoinerTag(joiner)})
    case Accept(j, reply, _, _, _, _) =>
      w.(joins := w.joins[j := w.joins[j].(accepted := Some(reply))])
    case Leak(code) => w.(secret := w.secret - {code})
  }

  ghost function Play(cfg: Config, secret: set<string>, start: Time, moves: seq<Move>): Option<World>
  {
    if moves == [] then Some(World(Initial(start), map[], {}, secret))
    else
      var n := |moves| - 1;
      match Play(cfg, secret, start, moves[..n])
      case None => None
      case Some(w) => if CanMove(w, moves[n]) then Some(Moved(cfg, w, moves[n])) else None
  }

  // The invariant.

  /** Join `run` and the coordinator's event `e` agree on everything that was exchanged. */
  predicate Agrees(cfg: Config, run: JoinRun, e: Event)
  {
    && e.Certified? && run.accepted.Some?
    && e.code == run.joiner.code
    && e.attempt.session.id == run.joiner.session && |run.joiner.session| == SESSION_ID_LEN
    && e.attempt.session.salt == run.joiner.salt
    && e.attempt.csr == JoinerCsr(run.joiner)
    && run.joiner.serverCert == cfg.serverCert
    && run.accepted.value.caDer == Der.Raw(cfg.ca.cert) == Der.Raw(e.bundle.caCert)
    && run.accepted.value.nodeDer == Der.Raw(e.bundle.nodeCert)
    && run.accepted.value.serverMac == e.bundle.serverMac
  }

  ghost predicate FromJoiner(joins: map<nat, JoinRun>, tag: Tag)
  {
    exists j :: j in joins && tag == JoinerTag(joins[j].joiner)
  }

  ghost predicate FromCoordinator(h: seq<Event>, tag: Tag)
  {
    exists i :: 0 <= i < |h| && h[i].Certified? && tag == h[i].bundle.serverMac
  }

  ghost predicate JoinsSound(w: World)
  {
    && (forall j | j in w.joins :: Started(w.joins[j].joiner))
    && (forall j, k | j in w.joins && k in w.joins && j != k :: w.joins[j].joiner.key != w.joins[k].joiner.key)
  }

  /** Secret tags on the wire were made by a joiner or by the coordinator. */
  ghost predicate WireSound(w: World)
  {
    forall tag | tag in w.wire && tag.Hmac? && tag.key.code in w.secret ::
      FromJoiner(w.joins, tag) || FromCoordinator(w.pairer.history, tag)
  }

  ghost predicate TagsKnown(w: World)
  {
    && (forall a | a in w.pairer.attempts :: Known(w.secret, w.wire, w.pairer.attempts[a].tag))
    && (forall i | 0 <= i < |w.pairer.history| && w.pairer.history[i].Certified? ::
          Known(w.secret, w.wire, w.pairer.history[i].attempt.tag))
  }

  ghost predicate Agreed(cfg: Config, run: JoinRun, h: seq<Event>)
  {
    exists i :: 0 <= i < |h| && Agrees(cfg, run, h[i])
  }

  ghost predicate AllAgreed(cfg: Config, w: World)
  {
    forall j | j in w.joins && w.joins[j].accepted.Some? && w.joins[j].joiner.code in w.secret ::
      Agreed(cfg, w.joins[j], w.pairer.history)
  }

  ghost predicate WorldInv(cfg: Config, w: World)
  {
    && Inv(cfg, w.pairer) && JoinsSound(w) && WireSound(w) && TagsKnown(w)
    && AllAgreed(cfg, w)
  }

  // Why an accepted reply can only come from the coordinator.

  /** What a certificate in the history carries. */
  lemma IssuanceSays(cfg: Config, e: Event)
    requires e.Certified? && Issuance(cfg, e)
    ensures e.bundle.caCert == cfg.ca.cert
    ensures e.bundle.serverMac == ServerMac(DeriveKey(e.code, e.attempt.session.salt), e.attempt.session.id,
                                            Der.Raw(cfg.ca.cert), Der.Raw(e.bundle.nodeCert))
    ensures Der.ParseRequest(e.attempt.csr).Some?
    ensures e.bundle.nodeCert.tbs.publicKey == Der.ParseRequest(e.attempt.csr).value.publicKey
  {
  }

  lemma EventInHistory(cfg: Config, h: seq<Event>, i: nat)
    requires HistorySound(cfg, h) && i < |h| && h[i].Certified?
    ensures Issuance(cfg, h[i]) && OpenedBy(cfg, h[i].attempt, h[i].code)
    ensures |h[i].attempt.session.id| == SESSION_ID_LEN
  {
    assert EventSound(cfg, h[..i], h[i]);
  }

  /** What a client MAC that both ends hold makes them agree on. The coordinator's session has 16
      octets; if the joiner's has 16 too, fixed lengths settle it. */
  lemma ClientAgrees(session: Bytes, server: Certificate, req: CertRequest, j: Joiner)
    requires |session| == SESSION_ID_LEN
    requires ClientMessage(session, CertHash(server), Der.RawRequest(req))
          == ClientMessage(j.session, CertHash(j.serverCert), JoinerCsr(j))
    ensures j.session == session && j.serverCert == server && j.request == req
  {
    if |j.session| == SESSION_ID_LEN {
      ClientMessageDetermines(session, CertHash(server), Der.RawRequest(req), j.session, CertHash(j.serverCert),
                              JoinerCsr(j));
      Sha256Injective(Der.Raw(server), Der.Raw(j.serverCert));
      Der.RawInjective(server, j.serverCert);
      Der.ParseRequestRoundTrip(req);
      Der.ParseRequestRoundTrip(j.request);
    } else {
      ClientMessageOfRequest(session, server, req, j.session, j.serverCert, j.request);
    }
  }

  /** Likewise for a server MAC: with 16 octets on both sides, prefix-free DER settles it. */
  lemma ServerAgrees(session: Bytes, ca: Certificate, node: Certificate, session': Bytes, ca': Certificate,
                     node': Certificate)
    requires |session'| == SESSION_ID_LEN
    requires ServerMessage(session, Der.Raw(ca), Der.Raw(node)) == ServerMessage(session', Der.Raw(ca'), Der.Raw(node'))
    ensures session == session' && ca == ca' && node == node'
  {
    if |session| == SESSION_ID_LEN {
      Der.ElementRoundTrip(CertContent(ca));
      Der.ElementRoundTrip(CertContent(ca'));
      ServerMessageDetermines(session, Der.Raw(ca), Der.Raw(node), session', Der.Raw(ca'), Der.Raw(node'));
      Der.RawInjective(ca, ca');
      Der.RawInjective(node, node');
    } else {
      ServerMessageOfCertificates(session, ca, node, session', ca', node');
    }
  }

  /** A server MAC under a secret code that the network can present was sent by the coordinator. */
  lemma ServerMacOrigin(w: World, tag: Tag, session: Bytes, ca: Bytes, node: Bytes)
    requires WireSound(w) && Known(w.secret, w.wire, tag)
    requires tag.Hmac? && tag.key.code in w.secret && tag.message == ServerMessage(session, ca, node)
    ensures FromCoordinator(w.pairer.history, tag)
  {
    if FromJoiner(w.joins, tag) {
      var j :| j in w.joins && tag == JoinerTag(w.joins[j].joiner);
      var joiner := w.joins[j].joiner;
      LabelsSeparate(joiner.session, CertHash(joiner.serverCert), JoinerCsr(joiner), session, ca, node);
    }
  }

  /** A client MAC under a secret code that the network can present was sent by a joiner. */
  lemma ClientMacOrigin(cfg: Config, w: World, tag: Tag, session: Bytes, hash: Bytes, csr: Bytes)
    requires HistorySound(cfg, w.pairer.history) && WireSound(w) && Known(w.secret, w.wire, tag)
    requires tag.Hmac? && tag.key.code in w.secret && tag.message == ClientMessage(session, hash, csr)
    ensures FromJoiner(w.joins, tag)
  {
    if FromCoordinator(w.pairer.history, tag) {
      var h := w.pairer.history;
      var i :| 0 <= i < |h| && h[i].Certified? && tag == h[i].bundle.serverMac;
      EventInHistory(cfg, h, i);
      IssuanceSays(cfg, h[i]);
      LabelsSeparate(session, hash, csr, h[i].attempt.session.id, Der.Raw(cfg.ca.cert), Der.Raw(h[i].bundle.nodeCert));
    }
  }

  /** Joiner and certification agree on everything the client MAC covers. */
  predicate Stands(cfg: Config, joiner: Joiner, e: Event)
    requires e.Certified?
  {
    && e.code == joiner.code
    && e.attempt.session.id == joiner.session && e.attempt.session.salt == joiner.salt
    && joiner.serverCert == cfg.serverCert
    && e.attempt.csr == JoinerCsr(joiner)
    && e.bundle.nodeCert.tbs.publicKey == P256(joiner.key)
  }

  lemma JoinerBehind(cfg: Config, w: World, i: nat) returns (k: nat)
    requires HistorySound(cfg, w.pairer.history) && WireSound(w) && TagsKnown(w) && JoinsSound(w)
    requires i < |w.pairer.history| && w.pairer.history[i].Certified? && w.pairer.history[i].code in w.secret
    ensures k in w.joins && Stands(cfg, w.joins[k].joiner, w.pairer.history[i])
  {
    var e := w.pairer.history[i];
    EventInHistory(cfg, w.pairer.history, i);
    IssuanceSays(cfg, e);
    var req := Der.ParseRequest(e.attempt.csr).value;
    ClientMacOrigin(cfg, w, e.attempt.tag, e.attempt.session.id, CertHash(cfg.serverCert), e.attempt.csr);
    k :| k in w.joins && e.attempt.tag == JoinerTag(w.joins[k].joiner);
    var joiner := w.joins[k].joiner;
    ClientAgrees(e.attempt.session.id, cfg.serverCert, req, joiner);
    StartedSays(joiner);
  }

  /** What Join has checked when it returns success. */
  lemma JoinFinishSays(j: Joiner, reply: CompleteReply, peer: Option<Certificate>, addr: string, now: Time, later: Time)
    returns (ca: Certificate, node: Certificate)
    requires JoinFinish(j, reply, peer, addr, now, later).Ok?
    ensures reply.caDer == Der.Raw(ca) && reply.nodeDer == Der.Raw(node)
    ensures reply.serverMac == ServerMac(JoinerKey(j), j.session, Der.Raw(ca), Der.Raw(node))
    ensures node.tbs.publicKey == P256(j.key)
  {
    ca := Der.ParseCertificate(reply.caDer).value;
    node := Der.ParseCertificate(reply.nodeDer).value;
  }

  /** The heart of agreement: an accepted reply was sent by the coordinator, to this very joiner. */
  lemma AcceptAgrees(cfg: Config, w: World, move: Move)
    requires WorldInv(cfg, w) && CanMove(w, move) && move.Accept?
    requires w.joins[move.j].joiner.code in w.secret
    ensures Agreed(cfg, w.joins[move.j].(accepted := Some(move.reply)), w.pairer.history)
  {
    var joiner, reply, h := w.joins[move.j].joiner, move.reply, w.pairer.history;
    var ca, node := JoinFinishSays(joiner, reply, move.peer, move.addr, move.now, move.later);
    ServerMacOrigin(w, reply.serverMac, joiner.session, Der.Raw(ca), Der.Raw(node));
    var i :| 0 <= i < |h| && h[i].Certified? && reply.serverMac == h[i].bundle.serverMac;
    var e := h[i];
    EventInHistory(cfg, h, i);
    IssuanceSays(cfg, e);
    ServerAgrees(joiner.session, ca, node, e.attempt.session.id, cfg.ca.cert, e.bundle.nodeCert);
    var k := JoinerBehind(cfg, w, i);
    assert k == move.j;
    assert Agrees(cfg, w.joins[move.j].(accepted := Some(reply)), h[i]);
  }

  // Preservation.

  lemma CoordinateInv(cfg: Config, w: World, step: Step)
    requires WorldInv(cfg, w) && CanMove(w, Coordinate(step))
    ensures WorldInv(cfg, Moved(cfg, w, Coordinate(step)))
  {
    InvStep(cfg, w.pairer, step);
    var w' := Moved(cfg, w, Coordinate(step));
    HistoryExtends(cfg, w.pairer, step);
    CoordinateWire(cfg, w, step);
    CoordinateTags(cfg, w, step);
    forall j | j in w'.joins && w'.joins[j].accepted.Some? && w'.joins[j].joiner.code in w'.secret
      ensures Agreed(cfg, w'.joins[j], w'.pairer.history)
    {
      AgreedLasts(cfg, w.joins[j], w.pairer.history, w'.pairer.history);
    }
  }

  lemma AgreedLasts(cfg: Config, run: JoinRun, h: seq<Event>, h': seq<Event>)
    requires Agreed(cfg, run, h) && h <= h'
    ensures Agreed(cfg, run, h')
  {
    var i :| 0 <= i < |h| && Agrees(cfg, run, h[i]);
    assert h'[i] == h[i];
  }

  lemma OriginLasts(h: seq<Event>, h': seq<Event>, tag: Tag)
    requires FromCoordinator(h, tag) && h <= h'
    ensures FromCoordinator(h', tag)
  {
    var i :| 0 <= i < |h| && h[i].Certified? && tag == h[i].bundle.serverMac;
    assert h'[i] == h[i];
  }

  lemma CoordinateWire(cfg: Config, w: World, step: Step)
    requires WireSound(w) && Enabled(w.pairer, step)
    ensures WireSound(Moved(cfg, w, Coordinate(step)))
  {
    var w' := Moved(cfg, w, Coordinate(step));
    var h, h' := w.pairer.history, w'.pairer.history;
    HistoryExtends(cfg, w.pairer, step);
    forall tag | tag in w'.wire && tag.Hmac? && tag.key.code in w'.secret
      ensures FromJoiner(w'.joins, tag) || FromCoordinator(h', tag)
    {
      if tag in w.wire {
        if FromCoordinator(h, tag) {
          OriginLasts(h, h', tag);
        }
      } else {
        assert 0 <= |h'| - 1 < |h'| && h'[|h'| - 1].Certified? && tag == h'[|h'| - 1].bundle.serverMac;
      }
    }
  }

  /** Attempts carry the tags they came with. */
  lemma TagsKept(cfg: Config, s: State, step: Step)
    requires Enabled(s, step)
    ensures var t := Apply(cfg, s, step);
            && (forall a | a in t.attempts ::
                  (a in s.attempts && t.attempts[a].tag == s.attempts[a].tag)
                  || (step.Admit? && t.attempts[a].tag == step.tag))
            && (forall i | |s.history| <= i < |t.history| && t.history[i].Certified? ::
                  step.Certify? && step.a in s.attempts && t.history[i].attempt == s.attempts[step.a])
  {
    if step.Admit? {
      AdmitShape(s, step.a, step.id, step.csr, step.tag);
    }
  }

  lemma CoordinateTags(cfg: Config, w: World, step: Step)
    requires TagsKnown(w) && CanMove(w, Coordinate(step))
    ensures TagsKnown(Moved(cfg, w, Coordinate(step)))
  {
    var w' := Moved(cfg, w, Coordinate(step));
    HistoryExtends(cfg, w.pairer, step);
    TagsKept(cfg, w.pairer, step);
    forall i | 0 <= i < |w'.pairer.history| && w'.pairer.history[i].Certified?
      ensures Known(w'.secret, w'.wire, w'.pairer.history[i].attempt.tag)
    {
      if i < |w.pairer.history| {
        assert w'.pairer.history[i] == w.pairer.history[i];
      }
    }
  }

  lemma JoinerOriginLasts(joins: map<nat, JoinRun>, joins': map<nat, JoinRun>, tag: Tag)
    requires FromJoiner(joins, tag)
    requires forall j | j in joins :: j in joins' && joins'[j].joiner == joins[j].joiner
    ensures FromJoiner(joins', tag)
  {
    var j :| j in joins && tag == JoinerTag(joins[j].joiner);
    assert j in joins' && tag == JoinerTag(joins'[j].joiner);
  }

  lemma StartWire(cfg: Config, w: World, j: nat, joiner: Joiner)
    requires WireSound(w) && j !in w.joins
    ensures WireSound(Moved(cfg, w, Start(j, joiner)))
  {
    var w' := Moved(cfg, w, Start(j, joiner));
    forall tag | tag in w'.wire && tag.Hmac? && tag.key.code in w'.secret
      ensures FromJoiner(w'.joins, tag) || FromCoordinator(w'.pairer.history, tag)
    {
      if tag !in w.wire {
        assert j in w'.joins && tag == JoinerTag(w'.joins[j].joiner);
      } else if FromJoiner(w.joins, tag) {
        JoinerOriginLasts(w.joins, w'.joins, tag);
      }
    }
  }

  lemma StartJoins(cfg: Config, w: World, j: nat, joiner: Joiner)
    requires JoinsSound(w) && AllAgreed(cfg, w) && CanMove(w, Start(j, joiner))
    ensures JoinsSound(Moved(cfg, w, Start(j, joiner))) && AllAgreed(cfg, Moved(cfg, w, Start(j, joiner)))
  {
  }

  lemma MoreWire(w: World, w': World)
    requires TagsKnown(w) && w'.pairer == w.pairer && w.wire <= w'.wire && w'.secret <= w.secret
    ensures TagsKnown(w')
  {
  }

  lemma StartInv(cfg: Config, w: World, j: nat, joiner: Joiner)
    requires WorldInv(cfg, w) && CanMove(w, Start(j, joiner))
    ensures WorldInv(cfg, Moved(cfg, w, Start(j, joiner)))
  {
    StartWire(cfg, w, j, joiner);
    StartJoins(cfg, w, j, joiner);
    MoreWire(w, Moved(cfg, w, Start(j, joiner)));
  }

  lemma AcceptWire(cfg: Config, w: World, move: Move)
    requires WireSound(w) && move.Accept? && move.j in w.joins
    ensures WireSound(Moved(cfg, w, move))
  {
    var w' := Moved(cfg, w, move);
    forall tag | tag in w'.wire && tag.Hmac? && tag.key.code in w'.secret
      ensures FromJoiner(w'.joins, tag) || FromCoordinator(w'.pairer.history, tag)
    {
      if FromJoiner(w.joins, tag) {
        JoinerOriginLasts(w.joins, w'.joins, tag);
      }
    }
  }

  lemma AcceptJoins(cfg: Config, w: World, move: Move)
    requires JoinsSound(w) && move.Accept? && move.j in w.joins
    ensures JoinsSound(Moved(cfg, w, move))
  {
  }

  lemma AcceptAll(cfg: Config, w: World, move: Move)
    requires AllAgreed(cfg, w) && move.Accept? && move.j in w.joins
    requires w.joins[move.j].joiner.code in w.secret ==>
               Agreed(cfg, w.joins[move.j].(accepted := Some(move.reply)), w.pairer.history)
    ensures AllAgreed(cfg, Moved(cfg, w, move))
  {
  }

  lemma AcceptInv(cfg: Config, w: World, move: Move)
    requires WorldInv(cfg, w) && CanMove(w, move) && move.Accept?
    ensures WorldInv(cfg, Moved(cfg, w, move))
  {
    if w.joins[move.j].joiner.code in w.secret {
      AcceptAgrees(cfg, w, move);
    }
    AcceptWire(cfg, w, move);
    AcceptJoins(cfg, w, move);
    AcceptAll(cfg, w, move);
  }

  /** A leak takes nothing back: it only ends what is promised about the code from now on. */
  lemma LeakInv(cfg: Config, w: World, code: string)
    requires WorldInv(cfg, w)
    ensures WorldInv(cfg, Moved(cfg, w, Leak(code)))
  {
    MoreWire(w, Moved(cfg, w, Leak(code)));
  }

  lemma {:induction false} WorldAlways(cfg: Config, secret: set<string>, start: Time, moves: seq<Move>)
    requires Play(cfg, secret, start, moves).Some?
    ensures WorldInv(cfg, Play(cfg, secret, start, moves).value)
  {
    if moves == [] {
      InvInitial(cfg, start);
    } else {
      var n := |moves| - 1;
      WorldAlways(cfg, secret, start, moves[..n]);
      var w := Play(cfg, secret, start, moves[..n]).value;
      match moves[n]
      case Coordinate(step) => CoordinateInv(cfg, w, step);
      case Start(j, joiner) => StartInv(cfg, w, j, joiner);
      case Accept(_, _, _, _, _, _) => AcceptInv(cfg, w, moves[n]);
      case Leak(code) => LeakInv(cfg, w, code);
    }
  }

  // Main results.

  /** Nothing is taken back: events stay, joins stay, and what a join accepted stays. */
  ghost predicate Later(v: World, w: World)
  {
    && v.pairer.history <= w.pairer.history
    && forall j | j in v.joins ::
         && j in w.joins && w.joins[j].joiner == v.joins[j].joiner
         && (v.joins[j].accepted.Some? ==> w.joins[j] == v.joins[j])
  }

  lemma LaterStep(cfg: Config, v: World, w: World, move: Move)
    requires Later(v, w) && CanMove(w, move)
    ensures Later(v, Moved(cfg, w, move))
  {
    if move.Coordinate? {
      HistoryExtends(cfg, w.pairer, move.step);
    }
  }

  lemma {:induction false} PlayContinues(cfg: Config, secret: set<string>, start: Time, moves: seq<Move>, k: nat,
                                         v: World)
    requires k <= |moves| && Play(cfg, secret, start, moves[..k]) == Some(v) && Play(cfg, secret, start, moves).Some?
    ensures Later(v, Play(cfg, secret, start, moves).value)
    decreases |moves|
  {
    if k == |moves| {
      assert moves[..k] == moves;
    } else {
      var n := |moves| - 1;
      assert moves[..n][..k] == moves[..k];
      PlayContinues(cfg, secret, start, moves[..n], k, v);
      LaterStep(cfg, v, Play(cfg, secret, start, moves[..n]).value, moves[n]);
    }
  }

  /** Agreement: whenever Join has returned success under a code that is still secret, the coordinator
      had by then completed a pairing for the same session, salt, request, CA, node certificate and
      server certificate, and the rest of the run, leaks of that code included, does not change it. */
  lemma AcceptedJoinsAgree(cfg: Config, secret: set<string>, start: Time, moves: seq<Move>, k: nat, v: World, w: World,
                           j: nat)
    requires k <= |moves| && Play(cfg, secret, start, moves[..k]) == Some(v)
             && Play(cfg, secret, start, moves) == Some(w)
    requires j in v.joins && v.joins[j].accepted.Some? && v.joins[j].joiner.code in v.secret
    ensures j in w.joins && |v.pairer.history| <= |w.pairer.history|
    ensures exists i :: 0 <= i < |v.pairer.history| && Agrees(cfg, w.joins[j], w.pairer.history[i])
  {
    WorldAlways(cfg, secret, start, moves[..k]);
    PlayContinues(cfg, secret, start, moves, k, v);
    assert Agreed(cfg, v.joins[j], v.pairer.history);
    var i :| 0 <= i < |v.pairer.history| && Agrees(cfg, v.joins[j], v.pairer.history[i]);
    assert Agrees(cfg, w.joins[j], w.pairer.history[i]);
  }

  /** The other direction: behind every certificate under a secret code stands a joiner that used that
      code for this server, and the certificate carries its key and, as a node of this mesh, its name. */
  lemma CertificateHasJoiner(cfg: Config, secret: set<string>, start: Time, moves: seq<Move>, w: World, i: nat)
    returns (k: nat)
    requires Play(cfg, secret, start, moves) == Some(w)
    requires i < |w.pairer.history| && w.pairer.history[i].Certified? && w.pairer.history[i].code in w.secret
    ensures k in w.joins
    ensures var joiner, e := w.joins[k].joiner, w.pairer.history[i];
            && e.code == joiner.code
            && e.attempt.session.id == joiner.session && e.attempt.session.salt == joiner.salt
            && joiner.serverCert == cfg.serverCert
            && e.attempt.csr == JoinerCsr(joiner)
            && e.bundle.nodeCert.tbs.publicKey == P256(joiner.key)
            && (Labels.ValidLabel(Pki.MeshOf(cfg.ca.cert)) ==>
                  Pki.PrincipalFromCert(e.bundle.nodeCert)
                  == Ok(Pki.Principal(Pki.MeshOf(cfg.ca.cert), Pki.ROLE_NODE, joiner.nodeId)))
  {
    WorldAlways(cfg, secret, start, moves);
    k := JoinerBehind(cfg, w, i);
    var joiner, e := w.joins[k].joiner, w.pairer.history[i];
    EventInHistory(cfg, w.pairer.history, i);
    StartedSays(joiner);
    Der.ParseRequestRoundTrip(joiner.request);
    if Labels.ValidLabel(Pki.MeshOf(cfg.ca.cert)) {
      IssuanceNames(cfg, e);
    }
  }

  ghost function AcceptedOn(joins: map<nat, JoinRun>, code: string): set<nat>
  {
    set j | j in joins && joins[j].accepted.Some? && joins[j].joiner.code == code
  }

  ghost function Positions(q: Query, h: seq<Event>): set<nat>
  {
    set i | 0 <= i < |h| && Answers(q, h[i])
  }

  lemma PositionsSnoc(q: Query, h: seq<Event>, e: Event)
    ensures |Positions(q, h + [e])| == |Positions(q, h)| + One(Answers(q, e))
  {
    if Answers(q, e) {
      assert Positions(q, h + [e]) == Positions(q, h) + {|h|};
    } else {
      assert Positions(q, h + [e]) == Positions(q, h);
    }
  }

  lemma {:induction false} PositionsCount(q: Query, h: seq<Event>)
    ensures |Positions(q, h)| == Count(q, h)
  {
    if h != [] {
      var n := |h| - 1;
      PositionsCount(q, h[..n]);
      PositionsSnoc(q, h[..n], h[n]);
      assert h == h[..n] + [h[n]];
    }
  }

  /** A set that maps one to one into another is no larger. */
  lemma {:induction false} Pigeons(from: set<nat>, to: set<nat>, place: map<nat, nat>)
    requires forall x | x in from :: x in place && place[x] in to
    requires forall x, y | x in from && y in from && x != y :: place[x] != place[y]
    ensures |from| <= |to|
  {
    if from != {} {
      var x :| x in from;
      Pigeons(from - {x}, to - {place[x]}, place);
    }
  }

  lemma PigeonsInHistory(from: set<nat>, q: Query, h: seq<Event>, place: map<nat, nat>)
    requires forall x | x in from :: x in place && place[x] < |h| && Answers(q, h[place[x]])
    requires forall x, y | x in from && y in from && x != y :: place[x] != place[y]
    ensures |from| <= Count(q, h)
  {
    Pigeons(from, Positions(q, h), place);
    PositionsCount(q, h);
  }

  /** One event agrees with one join at most: the request carries the joiner's key. */
  lemma AgreementIsInjective(cfg: Config, w: World, j: nat, k: nat, i: nat)
    requires JoinsSound(w) && j in w.joins && k in w.joins && i < |w.pairer.history|
    requires Agrees(cfg, w.joins[j], w.pairer.history[i]) && Agrees(cfg, w.joins[k], w.pairer.history[i])
    ensures j == k
  {
    var a, b := w.joins[j].joiner, w.joins[k].joiner;
    Der.ParseRequestRoundTrip(a.request);
    Der.ParseRequestRoundTrip(b.request);
    StartedSays(a);
    StartedSays(b);
  }

  /** Pick, for every accepted join, an event it agrees with. */
  lemma PickEvents(cfg: Config, joins: map<nat, JoinRun>, accepted: set<nat>, h: seq<Event>)
    returns (place: map<nat, nat>)
    requires forall j | j in accepted :: j in joins && Agreed(cfg, joins[j], h)
    ensures place.Keys == accepted
    ensures forall j | j in accepted :: place[j] < |h| && Agrees(cfg, joins[j], h[place[j]])
  {
    place := map j | j in accepted :: var i: nat :| i < |h| && Agrees(cfg, joins[j], h[i]); i;
  }

  lemma EventsDiffer(cfg: Config, w: World, accepted: set<nat>, place: map<nat, nat>)
    requires JoinsSound(w) && place.Keys == accepted
    requires forall j | j in accepted ::
               j in w.joins && place[j] < |w.pairer.history| && Agrees(cfg, w.joins[j], w.pairer.history[place[j]])
    ensures forall j, k | j in accepted && k in accepted && j != k :: place[j] != place[k]
  {
    forall j, k | j in accepted && k in accepted && j != k
      ensures place[j] != place[k]
    {
      if place[j] == place[k] {
        AgreementIsInjective(cfg, w, j, k, place[j]);
      }
    }
  }

  lemma AcceptedHaveAgreed(cfg: Config, w: World, code: string)
    requires AllAgreed(cfg, w) && code in w.secret
    ensures forall j | j in AcceptedOn(w.joins, code) :: j in w.joins && Agreed(cfg, w.joins[j], w.pairer.history)
  {
  }

  lemma JoinsPerCertificate(cfg: Config, w: World, code: string)
    requires JoinsSound(w) && AllAgreed(cfg, w) && code in w.secret
    ensures |AcceptedOn(w.joins, code)| <= Count(Certificates(code), w.pairer.history)
  {
    var h := w.pairer.history;
    var accepted := AcceptedOn(w.joins, code);
    AcceptedHaveAgreed(cfg, w, code);
    var place := PickEvents(cfg, w.joins, accepted, h);
    EventsDiffer(cfg, w, accepted, place);
    forall j | j in accepted
      ensures Answers(Certificates(code), h[place[j]])
    {
      assert Agrees(cfg, w.joins[j], h[place[j]]) && w.joins[j].joiner.code == code;
    }
    PigeonsInHistory(accepted, Certificates(code), h, place);
  }

  /** As long as a code is secret, it lets in at most as many joiners as the times it was issued. */
  lemma JoinsNeverExceedIssues(cfg: Config, secret: set<string>, start: Time, moves: seq<Move>, w: World, code: string)
    requires Play(cfg, secret, start, moves) == Some(w) && code in w.secret
    ensures |AcceptedOn(w.joins, code)| <= Count(Issues(code), w.pairer.history)
  {
    WorldAlways(cfg, secret, start, moves);
    JoinsPerCertificate(cfg, w, code);
    assert CodeBalance(w.pairer, code);
  }
}
