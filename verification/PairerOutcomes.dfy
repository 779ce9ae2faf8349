/** What becomes of a spent code, and whose certificate it buys. */
module PairerOutcomes {
  import opened Terms
  import opened Messages
  import opened PairerModel
  import opened PairerSteps
  import opened PairerSafety
  import opened PairerRuns
  import Der
  import Pki
  import Labels

  predicate Unsignable(csr: Bytes)
  {
    !Signable(csr)
  }

  /** Attempts that have spent the code on a request of the given kind and wait for the authority. */
  ghost function SigningFor(attempts: map<nat, Attempt>, code: string, kind: Bytes -> bool): set<nat>
  {
    set a | a in attempts && attempts[a].phase == Signing(code) && kind(attempts[a].csr)
  }

  predicate SpendsOn(e: Event, code: string, kind: Bytes -> bool)
  {
    e.Consumed? && e.code == code && kind(e.attempt.csr)
  }

  /** How often the code was spent on requests of the given kind. */
  function Spendings(h: seq<Event>, code: string, kind: Bytes -> bool): nat
  {
    if h == [] then 0 else Spendings(h[..|h| - 1], code, kind) + One(SpendsOn(h[|h| - 1], code, kind))
  }

  /** Every spending of that kind has ended in the given way or is still being signed. */
  ghost predicate OutcomeBalance(s: State, code: string, kind: Bytes -> bool, ending: Query)
  {
    Count(ending, s.history) + |SigningFor(s.attempts, code, kind)| == Spendings(s.history, code, kind)
  }

  /** One more event, where those signing keep pace with it. */
  lemma OutcomeMoves(s: State, e: Event, t: State, code: string, kind: Bytes -> bool, ending: Query)
    requires OutcomeBalance(s, code, kind, ending) && t.history == s.history + [e]
    requires |SigningFor(t.attempts, code, kind)| + One(Answers(ending, e))
             == |SigningFor(s.attempts, code, kind)| + One(SpendsOn(e, code, kind))
    ensures OutcomeBalance(t, code, kind, ending)
  {
    CountSnoc(ending, s.history, e);
    assert t.history[..|t.history| - 1] == s.history;
  }

  lemma SignerComes(attempts: map<nat, Attempt>, a: nat, spent: string, code: string, kind: Bytes -> bool)
    requires a in attempts && !attempts[a].phase.Signing?
    ensures |SigningFor(attempts[a := attempts[a].(phase := Signing(spent))], code, kind)|
            == |SigningFor(attempts, code, kind)| + One(spent == code && kind(attempts[a].csr))
  {
    var attempts' := attempts[a := attempts[a].(phase := Signing(spent))];
    if spent == code && kind(attempts[a].csr) {
      assert SigningFor(attempts', code, kind) == SigningFor(attempts, code, kind) + {a};
    } else {
      assert SigningFor(attempts', code, kind) == SigningFor(attempts, code, kind);
    }
  }

  lemma SignerGoes(attempts: map<nat, Attempt>, a: nat, code: string, kind: Bytes -> bool)
    requires a in attempts
    ensures |SigningFor(attempts - {a}, code, kind)| + One(attempts[a].phase == Signing(code) && kind(attempts[a].csr))
            == |SigningFor(attempts, code, kind)|
  {
    assert SigningFor(attempts - {a}, code, kind) == SigningFor(attempts, code, kind) - {a};
    assert a in SigningFor(attempts, code, kind) <==> attempts[a].phase == Signing(code) && kind(attempts[a].csr);
  }

  lemma FinishOutcome(s: State, a: nat, code: string, kind: Bytes -> bool, ending: Query)
    requires OutcomeBalance(s, code, kind, ending) && (ending.Certificates? || ending.Refusals?)
    requires a in s.attempts && s.attempts[a].phase.Matched?
    ensures OutcomeBalance(FinishStep(s, a), code, kind, ending)
  {
    var t := FinishStep(s, a);
    if t.history[|s.history|].Consumed? {
      SignerComes(s.attempts, a, s.attempts[a].phase.code, code, kind);
    } else {
      SignerGoes(s.attempts, a, code, kind);
    }
    OutcomeMoves(s, t.history[|s.history|], t, code, kind, ending);
  }

  /** Signing ends in a certificate exactly for signable requests. */
  lemma CertifyEvent(cfg: Config, s: State, a: nat, serial: nat, at: Time, pad: Pad)
    requires a in s.attempts && s.attempts[a].phase.Signing?
    ensures var t := CertifyStep(cfg, s, a, serial, at, pad);
            && |t.history| == |s.history| + 1 && t.attempts == s.attempts - {a}
            && var e := t.history[|s.history|];
            && (e.Certified? || e.Withheld?) && e.code == s.attempts[a].phase.code && e.attempt == s.attempts[a]
            && (e.Certified? <==> CanSign(cfg) && Signable(s.attempts[a].csr))
            && t.history == s.history + [e]
  {
    var attempt := s.attempts[a];
    CertifyExactly(cfg, attempt.phase.code, attempt.session, attempt.csr, serial, at, pad);
  }

  lemma CertifyOutcome(s: State, a: nat, t: State, e: Event, code: string, kind: Bytes -> bool, ending: Query)
    requires OutcomeBalance(s, code, kind, ending) && a in s.attempts && s.attempts[a].phase.Signing?
    requires t.history == s.history + [e] && t.attempts == s.attempts - {a} && !e.Consumed?
    requires Answers(ending, e) <==> s.attempts[a].phase.code == code && kind(s.attempts[a].csr)
    ensures OutcomeBalance(t, code, kind, ending)
  {
    SignerGoes(s.attempts, a, code, kind);
    OutcomeMoves(s, e, t, code, kind, ending);
  }

  lemma AdmitOutcome(s: State, a: nat, id: Bytes, csr: Bytes, tag: Tag, code: string, kind: Bytes -> bool,
                     ending: Query)
    requires OutcomeBalance(s, code, kind, ending) && (ending.Certificates? || ending.Refusals?) && a !in s.attempts
    ensures OutcomeBalance(AdmitStep(s, a, id, csr, tag), code, kind, ending)
  {
    var t := AdmitStep(s, a, id, csr, tag);
    AdmitShape(s, a, id, csr, tag);
    assert SigningFor(t.attempts, code, kind) == SigningFor(s.attempts, code, kind);
    if t.history != s.history {
      OutcomeMoves(s, Claimed(id, s.now, a in t.attempts), t, code, kind, ending);
    }
  }

  /** Steps other than signing. */
  lemma OutcomeStep(cfg: Config, s: State, step: Step, code: string, kind: Bytes -> bool, ending: Query)
    requires Enabled(s, step) && !step.Certify?
    requires OutcomeBalance(s, code, kind, ending) && (ending.Certificates? || ending.Refusals?)
    ensures OutcomeBalance(Apply(cfg, s, step), code, kind, ending)
  {
    var t := Apply(cfg, s, step);
    match step
    case Admit(a, id, csr, tag) => AdmitOutcome(s, a, id, csr, tag, code, kind, ending);
    case Finish(a) => FinishOutcome(s, a, code, kind, ending);
    case Match(a, _) => assert SigningFor(t.attempts, code, kind) == SigningFor(s.attempts, code, kind);
    case Issue(n, drawnAt, ttl) => OutcomeMoves(s, t.history[|s.history|], t, code, kind, ending);
    case Begin(id, salt, later) =>
      BeginShape(cfg, s, id, salt, later);
      if t.history != s.history {
        OutcomeMoves(s, t.history[|s.history|], t, code, kind, ending);
      }
    case _ =>
  }

  ghost predicate BothBalance(s: State, code: string)
  {
    OutcomeBalance(s, code, Signable, Certificates(code)) && OutcomeBalance(s, code, Unsignable, Refusals(code))
  }

  lemma CertifyBoth(cfg: Config, s: State, a: nat, serial: nat, at: Time, pad: Pad, code: string)
    requires CanSign(cfg) && a in s.attempts && s.attempts[a].phase.Signing? && BothBalance(s, code)
    ensures BothBalance(CertifyStep(cfg, s, a, serial, at, pad), code)
  {
    var t := CertifyStep(cfg, s, a, serial, at, pad);
    CertifyEvent(cfg, s, a, serial, at, pad);
    var e := t.history[|s.history|];
    CertifyOutcome(s, a, t, e, code, Signable, Certificates(code));
    CertifyOutcome(s, a, t, e, code, Unsignable, Refusals(code));
  }

  lemma BothStep(cfg: Config, s: State, step: Step, code: string)
    requires CanSign(cfg) && Enabled(s, step) && BothBalance(s, code)
    ensures BothBalance(Apply(cfg, s, step), code)
  {
    if step.Certify? {
      CertifyBoth(cfg, s, step.a, step.serial, step.at, step.pad, code);
    } else {
      OutcomeStep(cfg, s, step, code, Signable, Certificates(code));
      OutcomeStep(cfg, s, step, code, Unsignable, Refusals(code));
    }
  }

  /** What a spent code buys, over every interleaving: the codes spent on signable requests are the
      certificates issued or under way, and those spent on other requests the refusals. */
  lemma {:induction false} SpentCodesEnd(cfg: Config, start: Time, steps: seq<Step>, s: State, code: string)
    requires CanSign(cfg) && Exec(cfg, start, steps) == Some(s)
    ensures Count(Certificates(code), s.history) + |SigningFor(s.attempts, code, Signable)|
            == Spendings(s.history, code, Signable)
    ensures Count(Refusals(code), s.history) + |SigningFor(s.attempts, code, Unsignable)|
            == Spendings(s.history, code, Unsignable)
  {
    if steps == [] {
      assert SigningFor(s.attempts, code, Signable) == {} && SigningFor(s.attempts, code, Unsignable) == {};
    } else {
      var n := |steps| - 1;
      var before := Exec(cfg, start, steps[..n]).value;
      SpentCodesEnd(cfg, start, steps[..n], before, code);
      BothStep(cfg, before, steps[n], code);
    }
  }

  /** Whose certificate it is: in every run a certificate names a node of this mesh, under the subject
      of a signable request and with its key; never an admin, an authority or another mesh. A refusal
      was for a request that is not signable. */
  lemma CertificatesNameSubjects(cfg: Config, start: Time, steps: seq<Step>, s: State, i: nat)
    requires CanSign(cfg) && Labels.ValidLabel(Pki.MeshOf(cfg.ca.cert))
    requires Exec(cfg, start, steps) == Some(s) && i < |s.history|
    ensures s.history[i].Withheld? ==> !Signable(s.history[i].attempt.csr)
    ensures s.history[i].Certified? ==>
              var e := s.history[i];
              && Signable(e.attempt.csr)
              && var req, node := Der.ParseRequest(e.attempt.csr).value, e.bundle.nodeCert;
              && Pki.PrincipalFromCert(node)
                 == Ok(Pki.Principal(Pki.MeshOf(cfg.ca.cert), Pki.ROLE_NODE, req.commonName))
              && node.tbs.publicKey == req.publicKey && !node.tbs.isCA
  {
    InvAlways(cfg, start, steps);
    var e := s.history[i];
    assert EventSound(cfg, s.history[..i], e);
    if e.Certified? {
      IssuanceNames(cfg, e);
    }
  }

  lemma IssuanceNames(cfg: Config, e: Event)
    requires e.Certified? && Issuance(cfg, e) && Labels.ValidLabel(Pki.MeshOf(cfg.ca.cert))
    ensures Signable(e.attempt.csr)
    ensures var req, node := Der.ParseRequest(e.attempt.csr).value, e.bundle.nodeCert;
            && Pki.PrincipalFromCert(node) == Ok(Pki.Principal(Pki.MeshOf(cfg.ca.cert), Pki.ROLE_NODE, req.commonName))
            && node.tbs.publicKey == req.publicKey && !node.tbs.isCA
  {
    CertifyExactly(cfg, e.code, e.attempt.session, e.attempt.csr, e.serial, e.signedAt, e.pad);
    CertifyNamesSubject(cfg, e.code, e.attempt.session, e.attempt.csr, e.serial, e.signedAt, e.pad);
  }

  /** Every request gets its run: somebody who holds a code spends it, and a certificate comes out
      exactly if the authority can sign and the request is signable. */
  lemma EveryRequestSpends(cfg: Config, t: Time, n: nat, id: Bytes, salt: Bytes, csr: Bytes, serial: nat, at: Time,
                           pad: Pad)
    returns (steps: seq<Step>, s: State)
    requires n < CODE_SPACE && |id| == SESSION_ID_LEN && |salt| == SALT_LEN
    ensures Exec(cfg, t, steps) == Some(s) && s.attempts == map[]
    ensures |steps| == 6 && steps[..2] == [Issue(n, t, 0), Begin(id, salt, t)]
    ensures |s.history| == 5 && s.history[0].Issued? && s.history[1].Begun? && s.history[2].Claimed?
    ensures s.history[3].Consumed? && s.history[3].code == GenerateCode(n)
    ensures var e := s.history[4];
            && (e.Certified? || e.Withheld?) && e.code == GenerateCode(n) && e.attempt.csr == csr
            && e.attempt.session.id == id
            && (e.Certified? <==> CanSign(cfg) && Signable(csr))
  {
    steps, s := SpendOn(cfg, t, n, id, salt, csr);
    CertifyEvent(cfg, s, 0, serial, at, pad);
    ExecSnoc(cfg, t, steps, Certify(0, serial, at, pad));
    var before := s;
    s := Apply(cfg, s, Certify(0, serial, at, pad));
    assert before.attempts - {0} == map[];
    assert (steps + [Certify(0, serial, at, pad)])[..2] == steps[..2];
    steps := steps + [Certify(0, serial, at, pad)];
  }

  /** The smallest case: octets that are no request at all cost the code and buy nothing. */
  lemma CodeIsWasted(cfg: Config, t: Time, n: nat, id: Bytes, salt: Bytes) returns (steps: seq<Step>, s: State)
    requires n < CODE_SPACE && |id| == SESSION_ID_LEN && |salt| == SALT_LEN
    ensures Exec(cfg, t, steps) == Some(s)
    ensures |s.history| == 5 && s.history[3].Consumed? && s.history[3].code == GenerateCode(n)
    ensures s.history[4].Withheld? && s.attempts == map[] && forall i | 0 <= i < 5 :: !s.history[i].Certified?
  {
    steps, s := EveryRequestSpends(cfg, t, n, id, salt, [], 0, t, 0);
  }
}
