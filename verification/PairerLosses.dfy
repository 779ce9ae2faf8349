/** Why an attempt that matched a code finds it gone. */
module PairerLosses {
  import opened Terms
  import opened Messages
  import opened PairerModel
  import opened PairerSteps
  import opened PairerSafety
  import opened PairerRuns

  /** Nothing was collected since this code was issued: issuing collects first and stores afterwards,
      so a code that is issued expired stays until the next collection. */
  predicate JustIssued(s: State, code: string)
  {
    s.sweptLen < |s.history| && s.history[s.sweptLen].Issued? && s.history[s.sweptLen].code == code
  }

  /** Which codes are stored: those in the ledger that the last collection found unexpired or that
      were issued with it. */
  ghost predicate Kept(s: State)
  {
    && s.sweptLen <= |s.history|
    && forall c :: c in s.store.codes
                   <==> c in Ledger(s.history) && (Ledger(s.history)[c] >= s.sweptAt || JustIssued(s, c))
  }

  lemma SweptKept(s: State)
    requires StoreTracks(s)
    ensures Kept(Swept(s))
  {
    CollectIsEager(s);
  }

  /** Only the codes, the history and the last collection matter. */
  lemma KeptFrame(s: State, t: State)
    requires Kept(s) && t.store.codes == s.store.codes && t.history == s.history
    requires t.sweptAt == s.sweptAt && t.sweptLen == s.sweptLen
    ensures Kept(t)
  {
    forall c
      ensures c in t.store.codes
              <==> c in Ledger(t.history) && (Ledger(t.history)[c] >= t.sweptAt || JustIssued(t, c))
    {
      assert JustIssued(t, c) == JustIssued(s, c);
    }
  }

  /** An event that is no issue: the ledger changes as the store does. */
  lemma KeptMove(s: State, e: Event, t: State)
    requires Kept(s) && !e.Issued? && t.history == s.history + [e]
    requires t.store.codes == (if e.Consumed? then s.store.codes - {e.code} else s.store.codes)
    requires t.sweptAt == s.sweptAt && t.sweptLen == s.sweptLen
    ensures Kept(t)
  {
    HistorySnoc(s.history, e);
    forall c
      ensures c in t.store.codes
              <==> c in Ledger(t.history) && (Ledger(t.history)[c] >= t.sweptAt || JustIssued(t, c))
    {
      assert JustIssued(t, c) == JustIssued(s, c);
    }
  }

  lemma IssueKept(cfg: Config, s: State, n: nat, drawnAt: Time, ttl: Time)
    requires StoreTracks(s) && Enabled(s, Issue(n, drawnAt, ttl))
    ensures Kept(Apply(cfg, s, Issue(n, drawnAt, ttl)))
  {
    var t, u := Apply(cfg, s, Issue(n, drawnAt, ttl)), Swept(s);
    var code := GenerateCode(n);
    SweptKept(s);
    HistorySnoc(s.history, Issued(code, CodeExpiry(drawnAt, ttl)));
    forall c
      ensures c in t.store.codes
              <==> c in Ledger(t.history) && (Ledger(t.history)[c] >= t.sweptAt || JustIssued(t, c))
    {
      assert c in u.store.codes
             <==> c in Ledger(u.history) && (Ledger(u.history)[c] >= u.sweptAt || JustIssued(u, c));
      assert JustIssued(t, c) <==> c == code;
    }
  }

  lemma BeginKept(cfg: Config, s: State, id: Bytes, salt: Bytes, later: Time)
    requires StoreTracks(s) && Enabled(s, Begin(id, salt, later))
    ensures Kept(Apply(cfg, s, Begin(id, salt, later)))
  {
    var t := Apply(cfg, s, Begin(id, salt, later));
    SweptKept(s);
    BeginShape(cfg, s, id, salt, later);
    if t.history == s.history {
      KeptFrame(Swept(s), t);
    } else {
      KeptMove(Swept(s), Begun(Session(id, salt, later + DEFAULT_SESSION_TTL)), t);
    }
  }

  lemma AdmitKept(s: State, a: nat, id: Bytes, csr: Bytes, tag: Tag)
    requires StoreTracks(s) && a !in s.attempts
    ensures Kept(AdmitStep(s, a, id, csr, tag))
  {
    var t := AdmitStep(s, a, id, csr, tag);
    SweptKept(s);
    AdmitShape(s, a, id, csr, tag);
    if t.history == s.history {
      KeptFrame(Swept(s), t);
    } else {
      KeptMove(Swept(s), Claimed(id, s.now, a in t.attempts), t);
    }
  }

  lemma KeptStep(cfg: Config, s: State, step: Step)
    requires Enabled(s, step) && StoreTracks(s) && Kept(s)
    ensures Kept(Apply(cfg, s, step))
  {
    var t := Apply(cfg, s, step);
    match step
    case Poll => SweptKept(s);
    case Issue(n, drawnAt, ttl) => IssueKept(cfg, s, n, drawnAt, ttl);
    case Begin(id, salt, later) => BeginKept(cfg, s, id, salt, later);
    case Admit(a, id, csr, tag) => AdmitKept(s, a, id, csr, tag);
    case Finish(a) => KeptMove(s, t.history[|s.history|], t);
    case Certify(a, serial, at, pad) => KeptMove(s, t.history[|s.history|], t);
    case _ => KeptFrame(s, t);
  }

  lemma {:induction false} KeptAlways(cfg: Config, start: Time, steps: seq<Step>)
    requires Exec(cfg, start, steps).Some?
    ensures Kept(Exec(cfg, start, steps).value)
  {
    if steps != [] {
      var n := |steps| - 1;
      KeptAlways(cfg, start, steps[..n]);
      InvAlways(cfg, start, steps[..n]);
      KeptStep(cfg, Exec(cfg, start, steps[..n]).value, steps[n]);
    }
  }

  // A code that was there at position `from` of the history.

  ghost predicate LastTaking(h: seq<Event>, from: nat, code: string, k: int)
  {
    && from <= k < |h| && h[k].Consumed? && h[k].code == code
    && forall i | k < i < |h| :: !(h[i].Issued? && h[i].code == code)
  }

  /** Somebody consumed the code since, and it was not issued again. */
  ghost predicate TakenSince(h: seq<Event>, from: nat, code: string)
  {
    exists k :: LastTaking(h, from, code, k)
  }

  lemma {:induction false} TakenExactly(h: seq<Event>, from: nat, code: string)
    requires from <= |h| && code in Ledger(h[..from])
    ensures code !in Ledger(h) <==> TakenSince(h, from, code)
  {
    if from == |h| {
      assert h[..from] == h;
    } else {
      var n := |h| - 1;
      var front, last := h[..n], h[n];
      assert front[..from] == h[..from];
      TakenExactly(front, from, code);
      if last.Consumed? && last.code == code {
        assert LastTaking(h, from, code, n);
      } else {
        if k :| LastTaking(h, from, code, k) {
          assert LastTaking(front, from, code, k);
        }
        if k :| LastTaking(front, from, code, k) {
          if !(last.Issued? && last.code == code) {
            assert LastTaking(h, from, code, k);
          }
        }
      }
    }
  }

  /** The code is unclaimed but had expired when the store was last collected. */
  ghost predicate CollectedExpired(s: State, code: string)
  {
    code in Ledger(s.history) && Ledger(s.history)[code] < s.sweptAt && !JustIssued(s, code)
  }

  /** An attempt that matched a code is turned away exactly if a rival consumed the code since the
      attempt was admitted, or the code expired and somebody's collection took it; never both. In
      every other case it spends the code, expired or not. */
  lemma LostExactly(cfg: Config, start: Time, steps: seq<Step>, s: State, a: nat)
    requires Exec(cfg, start, steps) == Some(s) && Enabled(s, Finish(a)) && s.attempts[a].phase.code != ""
    ensures var at, t := s.attempts[a], Apply(cfg, s, Finish(a));
            var taken := TakenSince(s.history, at.born, at.phase.code);
            var expired := CollectedExpired(s, at.phase.code);
            && |t.history| == |s.history| + 1
            && t.history[|s.history|]
               == (if taken || expired then Lost(at.phase.code, at) else Consumed(at.phase.code, at))
            && !(taken && expired)
  {
    InvAlways(cfg, start, steps);
    KeptAlways(cfg, start, steps);
    MatchedWasThere(cfg, s, a);
    StoredExactly(s, s.attempts[a].born, s.attempts[a].phase.code);
    FinishLogs(s, a);
  }

  lemma FinishLogs(s: State, a: nat)
    requires a in s.attempts && s.attempts[a].phase.Matched? && s.attempts[a].phase.code != ""
    ensures var at := s.attempts[a];
            var e := if at.phase.code in s.store.codes then Consumed(at.phase.code, at) else Lost(at.phase.code, at);
            FinishStep(s, a).history == s.history + [e]
  {
  }

  lemma MatchedWasThere(cfg: Config, s: State, a: nat)
    requires Sound(cfg, s) && a in s.attempts && s.attempts[a].phase.Matched? && s.attempts[a].phase.code != ""
    ensures s.attempts[a].born < |s.history|
    ensures s.attempts[a].phase.code in Ledger(s.history[..s.attempts[a].born])
  {
    assert AttemptSound(cfg, s.history, s.attempts[a]);
  }

  lemma StoredExactly(s: State, from: nat, code: string)
    requires Kept(s) && from <= |s.history| && code in Ledger(s.history[..from])
    ensures code !in s.store.codes <==> TakenSince(s.history, from, code) || CollectedExpired(s, code)
    ensures !(TakenSince(s.history, from, code) && CollectedExpired(s, code))
  {
    TakenExactly(s.history, from, code);
  }

  /** Nobody consumed the code since, and neither it nor a later issue of it ends before `now`. */
  ghost predicate Undisturbed(h: seq<Event>, from: nat, code: string, now: Time)
  {
    && from <= |h| && code in Ledger(h[..from]) && Ledger(h[..from])[code] >= now
    && forall i | from <= i < |h| && (h[i].Consumed? || h[i].Issued?) && h[i].code == code ::
         h[i].Issued? && h[i].expiresAt >= now
  }

  lemma {:induction false} UndisturbedStays(h: seq<Event>, from: nat, code: string, now: Time)
    requires Undisturbed(h, from, code, now)
    ensures code in Ledger(h) && Ledger(h)[code] >= now
  {
    if from == |h| {
      assert h[..from] == h;
    } else {
      var n := |h| - 1;
      assert h[..n][..from] == h[..from];
      assert forall i | from <= i < n :: h[..n][i] == h[i];
      UndisturbedStays(h[..n], from, code, now);
    }
  }

  /** No rival is needed: the code expires after admission, a poll collects it, and the attempt that
      proved it is turned away. Nothing was ever consumed. */
  lemma LostToNobody(cfg: Config, t: Time, n: nat, id: Bytes, salt: Bytes, csr: Bytes)
    returns (steps: seq<Step>, s: State)
    requires n < CODE_SPACE && |id| == SESSION_ID_LEN && |salt| == SALT_LEN
    ensures Exec(cfg, t, steps) == Some(s) && s.attempts == map[]
    ensures |s.history| == 4 && s.history[0].Issued? && s.history[1].Begun?
    ensures s.history[2] == Claimed(id, t, true)
    ensures s.history[3].Lost? && s.history[3].code == GenerateCode(n)
    ensures s.history[3].attempt.csr == csr && s.history[3].attempt.tag == TagFor(cfg, GenerateCode(n), id, salt, csr)
  {
    CodesAreEightDigits(n);
    var code := GenerateCode(n);
    var s3: State;
    steps, s3 := RunToAdmitted(cfg, t, n, id, salt, csr, TagFor(cfg, code, id, salt, csr));
    var s5: State;
    steps, s5 := RunToCollected(cfg, t, steps, s3, code);
    steps, s := RunToLost(cfg, t, steps, s5, code);
  }

  lemma RunToCollected(cfg: Config, t: Time, steps: seq<Step>, s: State, code: string)
    returns (more: seq<Step>, s': State)
    requires Exec(cfg, t, steps) == Some(s) && s.now == t && s.store.codes == map[code := t + DEFAULT_CODE_TTL]
    ensures Exec(cfg, t, more) == Some(s')
    ensures code !in s'.store.codes && s'.attempts == s.attempts && s'.history == s.history
  {
    var late := t + DEFAULT_CODE_TTL + 1;
    ExecSnoc(cfg, t, steps, Tick(late));
    ExecSnoc(cfg, t, steps + [Tick(late)], Poll);
    more, s' := steps + [Tick(late)] + [Poll], Swept(s.(now := late));
  }

  lemma RunToLost(cfg: Config, t: Time, steps: seq<Step>, s: State, code: string) returns (more: seq<Step>, s': State)
    requires Exec(cfg, t, steps) == Some(s) && code !in s.store.codes && code != ""
    requires s.attempts.Keys == {0} && s.attempts[0].phase == Waiting && s.attempts[0].candidates == {code}
    requires Opens(code, s.attempts[0].session, CertHash(cfg.serverCert), s.attempts[0].csr, s.attempts[0].tag)
    ensures Exec(cfg, t, more) == Some(s') && s'.attempts == map[]
    ensures s'.history == s.history + [Lost(code, s.attempts[0].(phase := Matched(code)))]
  {
    ExecSnoc(cfg, t, steps, Match(0, [code]));
    var s4 := Apply(cfg, s, Match(0, [code]));
    assert s4.attempts[0].phase == Matched(code);
    ExecSnoc(cfg, t, steps + [Match(0, [code])], Finish(0));
    more, s' := steps + [Match(0, [code])] + [Finish(0)], Apply(cfg, s4, Finish(0));
    assert s4.attempts - {0} == map[];
  }
}
