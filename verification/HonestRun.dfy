/** A complete run of the protocol in the world of joiners, coordinator and network. */
module HonestRun {
  import opened Terms
  import opened Messages
  import opened PairerModel
  import opened PairerSteps
  import opened PairerRuns
  import opened Joining
  import opened Agreement
  import opened HonestJoin
  import opened HonestSteps
  import opened PairerOutcomes
  import PairerSafety
  import Der
  import Pki
  import Labels
  import Decimal

  lemma PlaySnoc(cfg: Config, secret: set<string>, start: Time, moves: seq<Move>, move: Move)
    requires Play(cfg, secret, start, moves).Some? && CanMove(Play(cfg, secret, start, moves).value, move)
    ensures Play(cfg, secret, start, moves + [move]) == Some(Moved(cfg, Play(cfg, secret, start, moves).value, move))
  {
    assert (moves + [move])[..|moves|] == moves;
  }

  /** A coordinator step in the world that certifies nothing. */
  lemma Quiet(cfg: Config, secret: set<string>, start: Time, moves: seq<Move>, w: World, step: Step, t: State)
    requires Play(cfg, secret, start, moves) == Some(w) && CanMove(w, Coordinate(step))
             && t == Apply(cfg, w.pairer, step)
    requires |t.history| > |w.pairer.history| ==> !t.history[|t.history| - 1].Certified?
    ensures Play(cfg, secret, start, moves + [Coordinate(step)]) == Some(World(t, w.joins, w.wire, w.secret))
  {
    PlaySnoc(cfg, secret, start, moves, Coordinate(step));
    assert w.wire + {} == w.wire;
  }

  lemma RunToSession(cfg: Config, secret: set<string>, t: Time, n: nat, id: Bytes, salt: Bytes)
    returns (moves: seq<Move>, s: State)
    requires n < CODE_SPACE && |id| == SESSION_ID_LEN && |salt| == SALT_LEN
    ensures Play(cfg, secret, t, moves) == Some(World(s, map[], {}, secret))
    ensures s.now == t && s.attempts == map[] && s.store == OpenStore(GenerateCode(n), id, salt, t)
  {
    var s1, s2 := IssueAndBegin(cfg, t, n, id, salt);
    var issue, begin := Coordinate(Issue(n, t, 0)), Coordinate(Begin(id, salt, t));
    Quiet(cfg, secret, t, [], World(Initial(t), map[], {}, secret), Issue(n, t, 0), s1);
    assert [] + [issue] == [issue];
    Quiet(cfg, secret, t, [issue], World(s1, map[], {}, secret), Begin(id, salt, t), s2);
    moves, s := [issue] + [begin], s2;
  }

  lemma RunToAdmission(cfg: Config, secret: set<string>, t: Time, n: nat, j: Joiner)
    returns (moves: seq<Move>, s: State)
    requires n < CODE_SPACE && |j.session| == SESSION_ID_LEN && |j.salt| == SALT_LEN
    requires Started(j) && j.code == GenerateCode(n)
    ensures Play(cfg, secret, t, moves) == Some(World(s, map[0 := JoinRun(j, None)], {JoinerTag(j)}, secret))
    ensures j.code in s.store.codes
    ensures exists born ::
              s.attempts == map[0 := Attempt(SessionAt(j.session, j.salt, t), JoinerCsr(j), JoinerTag(j),
                                             {j.code}, t, born, Waiting)]
  {
    var id, csr, tag := j.session, JoinerCsr(j), JoinerTag(j);
    var s2: State;
    moves, s2 := RunToSession(cfg, secret, t, n, id, j.salt);
    PlaySnoc(cfg, secret, t, moves, Start(0, j));
    moves := moves + [Start(0, j)];
    var w := World(s2, map[0 := JoinRun(j, None)], {tag}, secret);
    assert Play(cfg, secret, t, moves) == Some(w) by {
      var nobody: map<nat, JoinRun>, nothing: set<Tag> := map[], {};
      assert nobody[0 := JoinRun(j, None)] == w.joins && nothing + {tag} == w.wire;
    }
    s := AdmitOpens(cfg, s2, j.code, id, j.salt, csr, tag);
    Quiet(cfg, secret, t, moves, w, Admit(0, id, csr, tag), s);
    moves := moves + [Coordinate(Admit(0, id, csr, tag))];
  }

  /** From nothing to a spent code: the coordinator and one honest joiner. */
  lemma RunToSigning(cfg: Config, secret: set<string>, t: Time, n: nat, j: Joiner) returns (moves: seq<Move>, w: World)
    requires n < CODE_SPACE && |j.session| == SESSION_ID_LEN && |j.salt| == SALT_LEN
    requires Started(j) && j.code == GenerateCode(n) && j.serverCert == cfg.serverCert
    ensures Play(cfg, secret, t, moves) == Some(w) && w.joins == map[0 := JoinRun(j, None)] && w.secret == secret
    ensures w.pairer.attempts.Keys == {0}
    ensures var a := w.pairer.attempts[0];
            a.phase == Signing(j.code) && a.session == SessionAt(j.session, j.salt, t) && a.csr == JoinerCsr(j)
  {
    CodesAreEightDigits(n);
    var s3: State;
    moves, s3 := RunToAdmission(cfg, secret, t, n, j);
    var w3 := World(s3, map[0 := JoinRun(j, None)], {JoinerTag(j)}, secret);
    var s4, s5 := MatchAndFinish(cfg, s3, j.code);
    Quiet(cfg, secret, t, moves, w3, Match(0, [j.code]), s4);
    moves := moves + [Coordinate(Match(0, [j.code]))];
    Quiet(cfg, secret, t, moves, w3.(pairer := s4), Finish(0), s5);
    moves := moves + [Coordinate(Finish(0))];
    w := w3.(pairer := s5);
  }

  /** In the world of the agreement theorem, whatever codes are secret, an honest joiner with an
      issued code is accepted. */
  lemma SomeJoinIsAccepted(m: Mesh, secret: set<string>, t: Time, n: nat, nodeId: string, key: nat, csrPad: Pad,
                           id: Bytes, salt: Bytes, serial: nat, at: Time, pad: Pad, addr: string, now: Time,
                           later: Time)
    returns (moves: seq<Move>, w: World)
    requires Serving(m) && Labels.ValidLabel(nodeId) && SplitHostPort(addr).Some? && n < CODE_SPACE
    requires |id| == SESSION_ID_LEN && |salt| == SALT_LEN
    requires ClocksFit(m, nodeId, key, serial, at, pad, now, later)
    ensures Play(ServerOf(m).value.cfg, secret, t, moves) == Some(w) && w.secret == secret
    ensures 0 in w.joins && w.joins[0].accepted.Some?
    ensures w.joins[0].joiner.code == GenerateCode(n) && w.joins[0].joiner.nodeId == nodeId
            && w.joins[0].joiner.key == key
  {
    ServerSays(m);
    CodesAreEightDigits(n);
    var server := ServerOf(m).value;
    var request := CertRequest(nodeId, P256(key), P256(key), csrPad);
    var j := Joiner(GenerateCode(n), nodeId, key, request, id, salt, m.coordinator);
    moves, w := RunToSigning(server.cfg, secret, t, n, j);
    var (host, dialled) := SplitHostPort(addr).value;
    SplitExactly(addr, host, dialled);
    HonestCertified(m, w.pairer, 0, j, SessionAt(id, salt, t), serial, at, pad, addr, host, dialled, now, later);
    moves, w := SendAndAccept(m, secret, t, moves, w, serial, at, pad, addr, now, later);
  }

  /** The last two moves: the coordinator signs and sends, the joiner accepts. */
  lemma SendAndAccept(m: Mesh, secret: set<string>, t: Time, moves: seq<Move>, w: World,
                      serial: nat, at: Time, pad: Pad, addr: string, now: Time, later: Time)
    returns (more: seq<Move>, w': World)
    requires Serving(m) && Play(ServerOf(m).value.cfg, secret, t, moves) == Some(w)
    requires 0 in w.joins && w.joins[0].accepted.None?
    requires Enabled(w.pairer, Certify(0, serial, at, pad))
    requires var server := ServerOf(m).value;
             var t := Apply(server.cfg, w.pairer, Certify(0, serial, at, pad));
             && |t.history| == |w.pairer.history| + 1 && t.history[|w.pairer.history|].Certified?
             && JoinFinish(w.joins[0].joiner, ReplyTo(server, t.history[|w.pairer.history|].bundle),
                           Some(m.coordinator), addr, now, later).Ok?
    ensures Play(ServerOf(m).value.cfg, secret, t, more) == Some(w') && w'.secret == w.secret
    ensures 0 in w'.joins && w'.joins[0].accepted.Some? && w'.joins[0].joiner == w.joins[0].joiner
  {
    var server := ServerOf(m).value;
    var certify := Coordinate(Certify(0, serial, at, pad));
    PlaySnoc(server.cfg, secret, t, moves, certify);
    var sent := Moved(server.cfg, w, certify);
    var bundle := sent.pairer.history[|w.pairer.history|].bundle;
    assert bundle.serverMac in sent.wire;
    var accept := Accept(0, ReplyTo(server, bundle), Some(m.coordinator), addr, now, later);
    PlaySnoc(server.cfg, secret, t, moves + [certify], accept);
    more, w' := moves + [certify] + [accept], Moved(server.cfg, sent, accept);
  }

  function Zero16(): Bytes
  {
    seq(16, _ => Lit(0))
  }

  /** A mesh whose clocks all stand at zero. */
  lemma SmallMesh() returns (m: Mesh)
    ensures Serving(m) && ClocksFit(m, "n", 3, 2, 0, 0, 0, 0)
  {
    m := MeshExists("m", "c", 1, 2, 0, 1, 0);
    ServerSays(m);
    Pki.SecondsBounds(0 - Pki.BACKDATE);
    Pki.SecondsBounds(0 + ServerOf(m).value.cfg.nodeTtl);
  }

  /** The agreement theorem is not empty: a mesh, a secret code and a run with an accepted join on it. */
  lemma AgreementIsNotEmpty() returns (cfg: Config, secret: set<string>, moves: seq<Move>, w: World)
    ensures Play(cfg, secret, 0, moves) == Some(w)
    ensures 0 in w.joins && w.joins[0].accepted.Some? && w.joins[0].joiner.code in w.secret
    ensures exists i :: 0 <= i < |w.pairer.history| && Agrees(cfg, w.joins[0], w.pairer.history[i])
  {
    var m := SmallMesh();
    cfg, secret := ServerOf(m).value.cfg, {GenerateCode(0)};
    PortOf(1);
    var addr := ":" + Decimal.Itoa(1);
    moves, w := SomeJoinIsAccepted(m, secret, 0, 0, "n", 3, 0, Zero16(), Zero16(), 2, 0, 0, addr, 0, 0);
    assert moves[..|moves|] == moves;
    AcceptedJoinsAgree(cfg, secret, 0, moves, |moves|, w, w, 0);
  }

  /** The id announced to Begin does not bind: under it a certificate for any other name is obtained,
      and the request's subject is the name it carries. */
  lemma AnnouncedIdIsNotCertified(m: Mesh, announced: string, subject: string, key: nat, csrPad: Pad, t: Time, n: nat,
                                  id: Bytes, salt: Bytes, serial: nat, at: Time, pad: Pad)
    returns (s1: State, steps: seq<Step>, s: State)
    requires Serving(m) && Labels.ValidLabel(subject) && announced != subject
    requires n < CODE_SPACE && |id| == SESSION_ID_LEN && |salt| == SALT_LEN
    ensures var server := ServerOf(m).value;
            && |steps| >= 2 && steps[1] == Begin(id, salt, t)
            && Exec(server.cfg, t, steps[..1]) == Some(s1) && Exec(server.cfg, t, steps) == Some(s)
            && ServeBegin(server, s1.store, s1.now, BeginRequest(announced), id, salt, t).1
               == Ok(BeginReply(id, salt, m.id))
    ensures |s.history| > 0
    ensures var e := s.history[|s.history| - 1];
            && e.Certified? && e.attempt.session.id == id
            && Pki.PrincipalFromCert(e.bundle.nodeCert) == Ok(Pki.Principal(m.id, Pki.ROLE_NODE, subject))
  {
    ServerSays(m);
    var cfg := ServerOf(m).value.cfg;
    var req := CertRequest(subject, P256(key), P256(key), csrPad);
    var csr := Der.RawRequest(req);
    Der.ParseRequestRoundTrip(req);
    var s2: State;
    s1, s2 := RunToOpen(cfg, t, n, id, salt);
    steps, s := EveryRequestSpends(cfg, t, n, id, salt, csr, serial, at, pad);
    assert steps[..1] == steps[..2][..1] == [Issue(n, t, 0)] && steps[1] == steps[..2][1];
    CertificatesNameSubjects(cfg, t, steps, s, 4);
  }

  /** What the service answers to Begin, in every reachable state: the refusals of the Pairer, or the
      drawn session and salt with the mesh of the authority. */
  lemma BeginServed(server: Server, start: Time, steps: seq<Step>, s: State, request: BeginRequest,
                    id: Bytes, salt: Bytes, later: Time)
    requires Exec(server.cfg, start, steps) == Some(s)
    ensures var eager := EagerStore(s.history, s.now);
            var r := ServeBegin(server, s.store, s.now, request, id, salt, later).1;
            r == if eager.codes == map[] then Err(NoActiveCode)
                 else if |eager.failures| >= 5 then Err(TooManyAttempts)
                 else if |eager.sessions| >= 32 then Err(Busy)
                 else Ok(BeginReply(id, salt, Pki.MeshOf(server.cfg.ca.cert)))
  {
    PairerSafety.BeginAnswers(server.cfg, start, steps, s, id, salt, later);
  }
}
