/** An honest joiner among any number of other steps of the coordinator. */
module HonestSteps {
  import opened Terms
  import opened Messages
  import opened PairerModel
  import opened PairerSteps
  import opened PairerSafety
  import opened PairerLosses
  import opened Joining
  import opened HonestJoin
  import Der
  import Pki
  import Decimal

  /** The step is one of attempt `a`. */
  predicate Names(step: Step, a: nat)
  {
    (step.Admit? || step.Match? || step.Finish? || step.Certify?) && step.a == a
  }

  predicate Others(steps: seq<Step>, a: nat)
  {
    forall i | 0 <= i < |steps| :: !Names(steps[i], a)
  }

  /** From `s`, the step of attempt `a` and then any steps of others lead to `t`. */
  ghost predicate Then(cfg: Config, s: State, step: Step, others: seq<Step>, a: nat, t: State)
  {
    Enabled(s, step) && Others(others, a) && RunFrom(cfg, Apply(cfg, s, step), others) == Some(t)
  }

  lemma ThenRuns(cfg: Config, start: Time, steps: seq<Step>, s: State, step: Step, others: seq<Step>, a: nat, t: State)
    requires Exec(cfg, start, steps) == Some(s) && Then(cfg, s, step, others, a, t)
    ensures Exec(cfg, start, steps + [step] + others) == Some(t)
  {
    ExecSnoc(cfg, start, steps, step);
    ExecContinues(cfg, start, steps + [step], Apply(cfg, s, step), others);
  }

  /** Nobody but the attempt itself touches it. */
  lemma OthersLeave(cfg: Config, s: State, step: Step, a: nat)
    requires Enabled(s, step) && !Names(step, a) && a in s.attempts
    ensures a in Apply(cfg, s, step).attempts && Apply(cfg, s, step).attempts[a] == s.attempts[a]
  {
    if step.Admit? {
      AdmitShape(s, step.a, step.id, step.csr, step.tag);
    }
  }

  lemma {:induction false} OthersLeaveAll(cfg: Config, s: State, steps: seq<Step>, a: nat, t: State)
    requires Others(steps, a) && a in s.attempts && RunFrom(cfg, s, steps) == Some(t)
    ensures a in t.attempts && t.attempts[a] == s.attempts[a]
  {
    if steps != [] {
      var n := |steps| - 1;
      var u := RunFrom(cfg, s, steps[..n]).value;
      OthersLeaveAll(cfg, s, steps[..n], a, u);
      OthersLeave(cfg, u, steps[n], a);
    }
  }

  /** The joiner's code and session are in force, and the failure limit is not reached. */
  ghost predicate Welcome(s: State, code: string, session: Session)
  {
    var eager := EagerStore(s.history, s.now);
    && code in eager.codes && |eager.failures| < MAX_FAILURES
    && session.id in eager.sessions && eager.sessions[session.id] == session
  }

  /** The attempt that admission makes of the joiner's request. */
  ghost function AttemptOf(s: State, j: Joiner, session: Session): Attempt
  {
    Attempt(session, JoinerCsr(j), JoinerTag(j), EagerStore(s.history, s.now).codes.Keys, s.now, |s.history|, Waiting)
  }

  function AdmitOf(a: nat, j: Joiner): Step
  {
    Admit(a, j.session, JoinerCsr(j), JoinerTag(j))
  }

  /** The joiner answers for this session, with a code, to this server. */
  predicate Answering(j: Joiner, session: Session, server: Certificate)
  {
    j.session == session.id && j.salt == session.salt && j.serverCert == server
  }

  /** Admitted, the attempt waits until it is matched, in whatever order the codes are walked. */
  lemma HonestAdmitted(cfg: Config, start: Time, before: seq<Step>, s: State, a: nat, j: Joiner, session: Session,
                       others: seq<Step>, t: State)
    requires Exec(cfg, start, before) == Some(s) && a !in s.attempts
    requires Welcome(s, j.code, session) && Answering(j, session, cfg.serverCert)
    requires Then(cfg, s, AdmitOf(a, j), others, a, t)
    ensures a in t.attempts && t.attempts[a] == AttemptOf(s, j, session)
    ensures forall order | Enumerates(order, EagerStore(s.history, s.now).codes.Keys) :: Enabled(t, Match(a, order))
  {
    LazyIsEager(cfg, start, before, s);
    assert Apply(cfg, s, AdmitOf(a, j)).attempts[a] == AttemptOf(s, j, session);
    OthersLeaveAll(cfg, Apply(cfg, s, AdmitOf(a, j)), others, a, t);
  }

  /** Matched, it holds the joiner's code and may finish at any time. */
  lemma HonestMatched(cfg: Config, start: Time, before: seq<Step>, s: State, a: nat, j: Joiner, session: Session,
                      u: State, order: seq<string>, others: seq<Step>, t: State)
    requires Exec(cfg, start, before) == Some(s)
    requires Welcome(s, j.code, session) && Answering(j, session, cfg.serverCert)
    requires a in u.attempts && u.attempts[a] == AttemptOf(s, j, session)
    requires Then(cfg, u, Match(a, order), others, a, t)
    ensures a in t.attempts && t.attempts[a] == AttemptOf(s, j, session).(phase := Matched(j.code))
    ensures Enabled(t, Finish(a))
  {
    CodesInForceAreValid(cfg, start, before, s);
    LoopFindsJoiner(order, EagerStore(s.history, s.now).codes.Keys, session, cfg.serverCert, j);
    OthersLeaveAll(cfg, Apply(cfg, u, Match(a, order)), others, a, t);
  }

  /** If the code is still there, it is spent on the joiner, and signing may happen at any time. */
  lemma HonestSpent(cfg: Config, u: State, a: nat, attempt: Attempt, code: string, others: seq<Step>, t: State)
    requires a in u.attempts && u.attempts[a] == attempt.(phase := Matched(code)) && code != ""
    requires code in u.store.codes && Then(cfg, u, Finish(a), others, a, t)
    ensures a in t.attempts && t.attempts[a] == attempt.(phase := Signing(code))
    ensures forall serial, at, pad: Pad :: Enabled(t, Certify(a, serial, at, pad))
  {
    OthersLeaveAll(cfg, Apply(cfg, u, Finish(a)), others, a, t);
  }

  lemma CertifyGives(cfg: Config, s: State, a: nat, serial: nat, at: Time, pad: Pad, bundle: Bundle)
    requires a in s.attempts && s.attempts[a].phase.Signing?
    requires CertifyOp(cfg, s.attempts[a].phase.code, s.attempts[a].session, s.attempts[a].csr, serial, at, pad)
             == Ok(bundle)
    ensures Apply(cfg, s, Certify(a, serial, at, pad)).history
            == s.history + [Certified(s.attempts[a].phase.code, s.attempts[a], bundle, serial, at, pad)]
  {
  }

  /** The certificate that ends the attempt is the one the joiner asked for, and Join accepts it. */
  lemma HonestCertified(m: Mesh, s: State, a: nat, j: Joiner, session: Session, serial: nat, at: Time, pad: Pad,
                        addr: string, host: string, dialled: string, now: Time, later: Time)
    requires Serving(m) && Started(j) && Answering(j, session, m.coordinator) && Writes(addr, host, dialled)
    requires a in s.attempts && s.attempts[a].phase == Signing(j.code)
    requires s.attempts[a].session == session && s.attempts[a].csr == JoinerCsr(j)
    requires ClocksFit(m, j.nodeId, j.key, serial, at, pad, now, later)
    ensures NodeCert(m, j.nodeId, j.key, serial, at, pad).Ok?
    ensures var server := ServerOf(m).value;
            var t := Apply(server.cfg, s, Certify(a, serial, at, pad));
            && |t.history| == |s.history| + 1
            && var e := t.history[|s.history|];
            && e.Certified? && e.code == j.code
            && e.bundle.nodeCert == NodeCert(m, j.nodeId, j.key, serial, at, pad).value
            && JoinFinish(j, ReplyTo(server, e.bundle), Some(m.coordinator), addr, now, later)
               == Ok(JoinResult(j.key, e.bundle, server.identity.principal.name,
                                (if ':' in host then "[" + host + "]:" else host + ":") + Decimal.Itoa(m.port)))
  {
    StartedSays(j);
    SigningSucceeds(m, session, j, serial, at, pad);
    var node := NodeCert(m, j.nodeId, j.key, serial, at, pad).value;
    ReplyPasses(m, session, j, node, serial, at, pad, addr, host, dialled, now, later);
    var cfg := ServerOf(m).value.cfg;
    var mac := ServerMac(DeriveKey(j.code, session.salt), session.id, Der.Raw(cfg.ca.cert), Der.Raw(node));
    CertifyGives(cfg, s, a, serial, at, pad, Bundle(cfg.ca.cert, node, m.id, mac));
  }

  lemma {:induction false} RunExtends(cfg: Config, s: State, steps: seq<Step>, t: State)
    requires RunFrom(cfg, s, steps) == Some(t)
    ensures s.history <= t.history
  {
    if steps != [] {
      var n := |steps| - 1;
      var u := RunFrom(cfg, s, steps[..n]).value;
      RunExtends(cfg, s, steps[..n], u);
      HistoryExtends(cfg, u, steps[n]);
    }
  }

  lemma ThenExtends(cfg: Config, s: State, step: Step, others: seq<Step>, a: nat, t: State)
    requires Then(cfg, s, step, others, a, t)
    ensures s.history <= t.history
  {
    HistoryExtends(cfg, s, step);
    RunExtends(cfg, Apply(cfg, s, step), others, t);
  }

  /** Unconsumed and unexpired since it was in force, the code is stored. */
  lemma CodeIsKept(cfg: Config, start: Time, before: seq<Step>, s: State, step1: Step, others1: seq<Step>, u1: State,
                   step2: Step, others2: seq<Step>, u2: State, a: nat, code: string)
    requires Exec(cfg, start, before) == Some(s)
    requires Then(cfg, s, step1, others1, a, u1) && Then(cfg, u1, step2, others2, a, u2)
    requires Undisturbed(u2.history, |s.history|, code, u2.now)
    ensures code in u2.store.codes
  {
    ThenExtends(cfg, s, step1, others1, a, u1);
    ThenExtends(cfg, u1, step2, others2, a, u2);
    ThenRuns(cfg, start, before, s, step1, others1, a, u1);
    ThenRuns(cfg, start, before + [step1] + others1, u1, step2, others2, a, u2);
    InvAlways(cfg, start, before + [step1] + others1 + [step2] + others2);
    UndisturbedStays(u2.history, |s.history|, code, u2.now);
  }

  /** The exact condition: the joiner's code is spent unless somebody consumed it since admission, or
      it expired and a collection took it. */
  lemma HonestSpendsExactly(
    cfg: Config, start: Time, before: seq<Step>, s: State, a: nat, j: Joiner, session: Session,
    others1: seq<Step>, u1: State, order: seq<string>, others2: seq<Step>, u2: State)
    requires Exec(cfg, start, before) == Some(s) && a !in s.attempts
    requires Welcome(s, j.code, session) && Answering(j, session, cfg.serverCert) && ValidCode(j.code)
    requires Then(cfg, s, AdmitOf(a, j), others1, a, u1) && Then(cfg, u1, Match(a, order), others2, a, u2)
    ensures Enabled(u2, Finish(a))
    ensures var t := Apply(cfg, u2, Finish(a));
            var lost := TakenSince(u2.history, |s.history|, j.code) || CollectedExpired(u2, j.code);
            && |t.history| == |u2.history| + 1
            && (if lost then t.history[|u2.history|].Lost? else t.history[|u2.history|].Consumed?)
  {
    HonestAdmitted(cfg, start, before, s, a, j, session, others1, u1);
    HonestMatched(cfg, start, before, s, a, j, session, u1, order, others2, u2);
    ThenRuns(cfg, start, before, s, AdmitOf(a, j), others1, a, u1);
    ThenRuns(cfg, start, before + [AdmitOf(a, j)] + others1, u1, Match(a, order), others2, a, u2);
    LostExactly(cfg, start, before + [AdmitOf(a, j)] + others1 + [Match(a, order)] + others2, u2, a);
  }

  /** Honest completion, given that the code is still stored when the attempt finishes. */
  lemma JoinWithCodeKept(
    m: Mesh, start: Time, before: seq<Step>, s: State, a: nat, j: Joiner, session: Session,
    others1: seq<Step>, u1: State, order: seq<string>, others2: seq<Step>, u2: State, others3: seq<Step>, u3: State,
    serial: nat, at: Time, pad: Pad, addr: string, host: string, dialled: string, now: Time, later: Time, loadAt: Time)
    requires Serving(m) && Started(j) && Writes(addr, host, dialled)
    requires Exec(ServerOf(m).value.cfg, start, before) == Some(s) && a !in s.attempts
    requires Welcome(s, j.code, session) && Answering(j, session, m.coordinator)
    requires Then(ServerOf(m).value.cfg, s, AdmitOf(a, j), others1, a, u1)
    requires Then(ServerOf(m).value.cfg, u1, Match(a, order), others2, a, u2)
    requires j.code in u2.store.codes
    requires Then(ServerOf(m).value.cfg, u2, Finish(a), others3, a, u3)
    requires ClocksFit(m, j.nodeId, j.key, serial, at, pad, now, later)
    ensures Exec(ServerOf(m).value.cfg, start,
                 before + [AdmitOf(a, j)] + others1 + [Match(a, order)] + others2 + [Finish(a)] + others3) == Some(u3)
    ensures Enabled(u3, Certify(a, serial, at, pad))
    ensures var server := ServerOf(m).value;
            var t := Apply(server.cfg, u3, Certify(a, serial, at, pad));
            && |t.history| == |u3.history| + 1
            && var e := t.history[|u3.history|];
            && e.Certified? && e.code == j.code
            && JoinFinish(j, ReplyTo(server, e.bundle), Some(m.coordinator), addr, now, later)
               == Ok(JoinResult(j.key, e.bundle, server.identity.principal.name,
                                (if ':' in host then "[" + host + "]:" else host + ":") + Decimal.Itoa(m.port)))
            && (Pki.InPeriod(server.cfg.ca.cert, loadAt) && Pki.InPeriod(e.bundle.nodeCert, loadAt) ==>
                  Pki.NewIdentity(server.cfg.ca.cert, e.bundle.nodeCert, j.key, loadAt)
                  == Ok(Pki.Identity(Pki.Principal(m.id, Pki.ROLE_NODE, j.nodeId), server.cfg.ca.cert,
                                     e.bundle.nodeCert, j.key)))
  {
    ServerSays(m);
    var cfg := ServerOf(m).value.cfg;
    ThenRuns(cfg, start, before, s, AdmitOf(a, j), others1, a, u1);
    ThenRuns(cfg, start, before + [AdmitOf(a, j)] + others1, u1, Match(a, order), others2, a, u2);
    var upTo2 := before + [AdmitOf(a, j)] + others1 + [Match(a, order)] + others2;
    ThenRuns(cfg, start, upTo2, u2, Finish(a), others3, a, u3);
    HonestAdmitted(cfg, start, before, s, a, j, session, others1, u1);
    HonestMatched(cfg, start, before, s, a, j, session, u1, order, others2, u2);
    HonestSpent(cfg, u2, a, AttemptOf(s, j, session), j.code, others3, u3);
    HonestCertified(m, u3, a, j, session, serial, at, pad, addr, host, dialled, now, later);
    if Pki.InPeriod(cfg.ca.cert, loadAt) && Pki.InPeriod(NodeCert(m, j.nodeId, j.key, serial, at, pad).value, loadAt) {
      NodeCertLoads(m, j.nodeId, j.key, serial, at, pad, loadAt);
    }
  }

  /** Honest completion. From any reachable state with the code and the session in force and the
      limit not reached, the joiner's attempt `a` is admitted, matched, finished and signed while
      others do anything in between, except that nobody consumes the code before the attempt
      finishes, and that neither the code nor a later issue of it ends before then. Join accepts the
      reply, and the certificate loads as the joiner's node identity in this mesh. */
  lemma HonestJoinSucceeds(
    m: Mesh, start: Time, before: seq<Step>, s: State, a: nat, j: Joiner, session: Session,
    others1: seq<Step>, u1: State, order: seq<string>, others2: seq<Step>, u2: State, others3: seq<Step>, u3: State,
    serial: nat, at: Time, pad: Pad, addr: string, host: string, dialled: string, now: Time, later: Time, loadAt: Time)
    requires Serving(m) && Started(j) && Writes(addr, host, dialled)
    requires Exec(ServerOf(m).value.cfg, start, before) == Some(s) && a !in s.attempts
    requires Welcome(s, j.code, session) && Answering(j, session, m.coordinator)
    requires Then(ServerOf(m).value.cfg, s, AdmitOf(a, j), others1, a, u1)
    requires Then(ServerOf(m).value.cfg, u1, Match(a, order), others2, a, u2)
    requires Undisturbed(u2.history, |s.history|, j.code, u2.now)
    requires Then(ServerOf(m).value.cfg, u2, Finish(a), others3, a, u3)
    requires ClocksFit(m, j.nodeId, j.key, serial, at, pad, now, later)
    ensures Exec(ServerOf(m).value.cfg, start,
                 before + [AdmitOf(a, j)] + others1 + [Match(a, order)] + others2 + [Finish(a)] + others3) == Some(u3)
    ensures Enabled(u3, Certify(a, serial, at, pad))
    ensures var server := ServerOf(m).value;
            var t := Apply(server.cfg, u3, Certify(a, serial, at, pad));
            && |t.history| == |u3.history| + 1
            && var e := t.history[|u3.history|];
            && e.Certified? && e.code == j.code
            && JoinFinish(j, ReplyTo(server, e.bundle), Some(m.coordinator), addr, now, later)
               == Ok(JoinResult(j.key, e.bundle, server.identity.principal.name,
                                (if ':' in host then "[" + host + "]:" else host + ":") + Decimal.Itoa(m.port)))
            && (Pki.InPeriod(server.cfg.ca.cert, loadAt) && Pki.InPeriod(e.bundle.nodeCert, loadAt) ==>
                  Pki.NewIdentity(server.cfg.ca.cert, e.bundle.nodeCert, j.key, loadAt)
                  == Ok(Pki.Identity(Pki.Principal(m.id, Pki.ROLE_NODE, j.nodeId), server.cfg.ca.cert,
                                     e.bundle.nodeCert, j.key)))
  {
    ServerSays(m);
    var cfg := ServerOf(m).value.cfg;
    CodeIsKept(cfg, start, before, s, AdmitOf(a, j), others1, u1, Match(a, order), others2, u2, a, j.code);
    JoinWithCodeKept(m, start, before, s, a, j, session, others1, u1, order, others2, u2, others3, u3,
                     serial, at, pad, addr, host, dialled, now, later, loadAt);
  }
}
