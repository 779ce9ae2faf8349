/** One code, one session and one attempt: the shortest run of the Pairer that spends a code. */
module PairerRuns {
  import opened Terms
  import opened Messages
  import opened PairerModel
  import opened PairerSteps

  function SessionAt(id: Bytes, salt: Bytes, t: Time): Session
  {
    Session(id, salt, t + DEFAULT_SESSION_TTL)
  }

  /** One code issued and one session opened, at one instant. */
  function OpenStore(code: string, id: Bytes, salt: Bytes, t: Time): Store
  {
    Store(map[code := t + DEFAULT_CODE_TTL], map[id := SessionAt(id, salt, t)], [])
  }

  /** The one code, before any session. */
  function IssuedStore(code: string, t: Time): Store
  {
    Store(map[code := t + DEFAULT_CODE_TTL], map[], [])
  }

  lemma IssuedStays(code: string, t: Time)
    ensures Collect(IssuedStore(code, t), t) == IssuedStore(code, t) && |IssuedStore(code, t).codes| == 1
  {
    var store := IssuedStore(code, t);
    assert LiveCodes(store.codes, t) == store.codes;
    assert LiveSessions(store.sessions, t) == store.sessions;
  }

  lemma IssueFirst(cfg: Config, t: Time, n: nat) returns (s: State)
    requires n < CODE_SPACE
    ensures Enabled(Initial(t), Issue(n, t, 0)) && s == Apply(cfg, Initial(t), Issue(n, t, 0))
    ensures s.now == t && s.attempts == map[] && s.history == [Issued(GenerateCode(n), t + DEFAULT_CODE_TTL)]
    ensures s.store == IssuedStore(GenerateCode(n), t)
  {
    s := Apply(cfg, Initial(t), Issue(n, t, 0));
    assert LiveCodes(map[], t) == map[] && LiveSessions(map[], t) == map[];
  }

  lemma BeginOnIssued(code: string, t: Time, id: Bytes, salt: Bytes)
    ensures BeginOp(IssuedStore(code, t), t, id, salt, t) == (OpenStore(code, id, salt, t), Ok(SessionAt(id, salt, t)))
  {
    IssuedStays(code, t);
  }

  lemma IssueAndBegin(cfg: Config, t: Time, n: nat, id: Bytes, salt: Bytes) returns (s1: State, s2: State)
    requires n < CODE_SPACE && |id| == SESSION_ID_LEN && |salt| == SALT_LEN
    ensures Enabled(Initial(t), Issue(n, t, 0)) && s1 == Apply(cfg, Initial(t), Issue(n, t, 0))
    ensures Enabled(s1, Begin(id, salt, t)) && s2 == Apply(cfg, s1, Begin(id, salt, t))
    ensures s1.now == t && s1.attempts == map[] && s1.history == [Issued(GenerateCode(n), t + DEFAULT_CODE_TTL)]
    ensures s2.attempts == map[] && s2.history == s1.history + [Begun(SessionAt(id, salt, t))]
    ensures BeginOp(s1.store, t, id, salt, t) == (s2.store, Ok(SessionAt(id, salt, t)))
    ensures s2.now == t && s2.store == OpenStore(GenerateCode(n), id, salt, t)
  {
    s1 := IssueFirst(cfg, t, n);
    BeginOnIssued(GenerateCode(n), t, id, salt);
    s2 := Apply(cfg, s1, Begin(id, salt, t));
  }

  lemma AdmitOpens(cfg: Config, s: State, code: string, id: Bytes, salt: Bytes, csr: Bytes, tag: Tag)
    returns (s': State)
    requires s.store == OpenStore(code, id, salt, s.now) && s.attempts == map[]
    ensures Enabled(s, Admit(0, id, csr, tag)) && s' == Apply(cfg, s, Admit(0, id, csr, tag))
    ensures s'.now == s.now && s'.store.codes == s.store.codes && s'.history == s.history + [Claimed(id, s.now, true)]
    ensures s'.attempts == map[0 := Attempt(SessionAt(id, salt, s.now), csr, tag, {code}, s.now, |s.history|, Waiting)]
  {
    var store := s.store;
    assert Collect(store, s.now) == store by {
      assert LiveCodes(store.codes, s.now) == store.codes;
      assert LiveSessions(store.sessions, s.now) == store.sessions;
    }
    assert store.codes.Keys == {code};
    s' := Apply(cfg, s, Admit(0, id, csr, tag));
  }

  lemma MatchAndFinish(cfg: Config, s: State, code: string) returns (s4: State, s5: State)
    requires s.attempts.Keys == {0} && s.attempts[0].phase == Waiting && s.attempts[0].candidates == {code}
    requires code in s.store.codes && code != ""
    requires Opens(code, s.attempts[0].session, CertHash(cfg.serverCert), s.attempts[0].csr, s.attempts[0].tag)
    ensures Enabled(s, Match(0, [code])) && s4 == Apply(cfg, s, Match(0, [code]))
    ensures Enabled(s4, Finish(0)) && s5 == Apply(cfg, s4, Finish(0))
    ensures s4.history == s.history
    ensures s5.history == s.history + [Consumed(code, s.attempts[0].(phase := Matched(code)))]
    ensures s5.attempts == map[0 := s.attempts[0].(phase := Signing(code))]
  {
    s4 := Apply(cfg, s, Match(0, [code]));
    assert s4.attempts[0].phase == Matched(code);
    s5 := Apply(cfg, s4, Finish(0));
  }

  /** The client MAC of somebody who holds the code. */
  function TagFor(cfg: Config, code: string, id: Bytes, salt: Bytes, csr: Bytes): Tag
  {
    ClientMac(DeriveKey(code, salt), id, CertHash(cfg.serverCert), csr)
  }

  lemma RunToOpen(cfg: Config, t: Time, n: nat, id: Bytes, salt: Bytes) returns (s1: State, s2: State)
    requires n < CODE_SPACE && |id| == SESSION_ID_LEN && |salt| == SALT_LEN
    ensures Exec(cfg, t, [Issue(n, t, 0)]) == Some(s1) && Exec(cfg, t, [Issue(n, t, 0), Begin(id, salt, t)]) == Some(s2)
    ensures s1.now == t && s2.store == BeginOp(s1.store, t, id, salt, t).0
    ensures BeginOp(s1.store, t, id, salt, t).1 == Ok(SessionAt(id, salt, t))
    ensures s2.now == t && s2.attempts == map[] && s2.store == OpenStore(GenerateCode(n), id, salt, t)
    ensures s2.history == [Issued(GenerateCode(n), t + DEFAULT_CODE_TTL), Begun(SessionAt(id, salt, t))]
  {
    s1, s2 := IssueAndBegin(cfg, t, n, id, salt);
    ExecSnoc(cfg, t, [], Issue(n, t, 0));
    assert [] + [Issue(n, t, 0)] == [Issue(n, t, 0)];
    ExecSnoc(cfg, t, [Issue(n, t, 0)], Begin(id, salt, t));
    assert [Issue(n, t, 0)] + [Begin(id, salt, t)] == [Issue(n, t, 0), Begin(id, salt, t)];
  }

  /** Whoever holds a code can spend it on any request whatever. */
  lemma SpendOn(cfg: Config, t: Time, n: nat, id: Bytes, salt: Bytes, csr: Bytes) returns (steps: seq<Step>, s: State)
    requires n < CODE_SPACE && |id| == SESSION_ID_LEN && |salt| == SALT_LEN
    ensures Exec(cfg, t, steps) == Some(s)
    ensures |steps| == 5 && steps[..2] == [Issue(n, t, 0), Begin(id, salt, t)]
    ensures s.attempts.Keys == {0} && s.attempts[0].phase == Signing(GenerateCode(n))
    ensures s.attempts[0].csr == csr && s.attempts[0].session == SessionAt(id, salt, t)
    ensures |s.history| == 4 && s.history[0].Issued? && s.history[1].Begun? && s.history[2].Claimed?
    ensures s.history[3].Consumed? && s.history[3].code == GenerateCode(n) && s.history[3].attempt.csr == csr
  {
    CodesAreEightDigits(n);
    var code := GenerateCode(n);
    var tag := TagFor(cfg, code, id, salt, csr);
    steps, s := RunToAdmitted(cfg, t, n, id, salt, csr, tag);
    var start := steps;
    steps, s := RunToSpent(cfg, t, steps, s, code);
    assert steps[..2] == steps[..|start|][..2];
  }

  lemma RunToAdmitted(cfg: Config, t: Time, n: nat, id: Bytes, salt: Bytes, csr: Bytes, tag: Tag)
    returns (steps: seq<Step>, s: State)
    requires n < CODE_SPACE && |id| == SESSION_ID_LEN && |salt| == SALT_LEN
    ensures Exec(cfg, t, steps) == Some(s) && |steps| == 3 && steps[..2] == [Issue(n, t, 0), Begin(id, salt, t)]
    ensures s.now == t && s.store.codes == map[GenerateCode(n) := t + DEFAULT_CODE_TTL]
    ensures |s.history| == 3 && s.history[0].Issued? && s.history[1].Begun? && s.history[2] == Claimed(id, t, true)
    ensures s.attempts == map[0 := Attempt(SessionAt(id, salt, t), csr, tag, {GenerateCode(n)}, t, 2, Waiting)]
  {
    var s1, s2 := RunToOpen(cfg, t, n, id, salt);
    steps := [Issue(n, t, 0), Begin(id, salt, t)];
    s := AdmitOpens(cfg, s2, GenerateCode(n), id, salt, csr, tag);
    ExecSnoc(cfg, t, steps, Admit(0, id, csr, tag));
    steps := steps + [Admit(0, id, csr, tag)];
  }

  lemma RunToSpent(cfg: Config, t: Time, steps: seq<Step>, s: State, code: string) returns (more: seq<Step>, s': State)
    requires Exec(cfg, t, steps) == Some(s)
    requires s.attempts.Keys == {0} && s.attempts[0].phase == Waiting && s.attempts[0].candidates == {code}
    requires code in s.store.codes && code != ""
    requires Opens(code, s.attempts[0].session, CertHash(cfg.serverCert), s.attempts[0].csr, s.attempts[0].tag)
    ensures Exec(cfg, t, more) == Some(s') && |more| == |steps| + 2 && more[..|steps|] == steps
    ensures s'.history == s.history + [Consumed(code, s.attempts[0].(phase := Matched(code)))]
    ensures s'.attempts == map[0 := s.attempts[0].(phase := Signing(code))]
  {
    var s4, s5 := MatchAndFinish(cfg, s, code);
    ExecSnoc(cfg, t, steps, Match(0, [code]));
    ExecSnoc(cfg, t, steps + [Match(0, [code])], Finish(0));
    more, s' := steps + [Match(0, [code])] + [Finish(0)], s5;
  }
}
