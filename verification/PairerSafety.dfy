/** What every run of the Pairer keeps, whatever the interleaving. */
module PairerSafety {
  import opened Terms
  import opened Messages
  import opened PairerModel
  import opened PairerSteps

  // The pieces of the invariant.

  /** The lazily collected store and the eager one agree on everything still in force. */
  ghost predicate StoreTracks(s: State)
  {
    && s.sweptAt <= s.now
    && (forall c | c in s.store.codes :: c in Ledger(s.history) && Ledger(s.history)[c] == s.store.codes[c])
    && (forall c | c in Ledger(s.history) && Ledger(s.history)[c] >= s.now :: c in s.store.codes)
    && (forall id | id in s.store.sessions ::
          id in Openings(s.history) && Openings(s.history)[id] == s.store.sessions[id])
    && (forall id | id in Openings(s.history) && Openings(s.history)[id].expiresAt >= s.now :: id in s.store.sessions)
    && s.store.failures == Recent(Failures(s.history), s.sweptAt)
  }

  ghost predicate WellFormed(s: State)
  {
    && (forall c | c in s.store.codes :: ValidCode(c))
    && (forall id | id in s.store.sessions :: s.store.sessions[id].id == id
                                              && |id| == SESSION_ID_LEN && |s.store.sessions[id].salt| == SALT_LEN)
    && |s.store.sessions| <= MAX_SESSIONS
  }

  /** Codes and sessions are never spent more often than they were handed out. */
  ghost predicate CodeBalance(s: State, c: string)
  {
    && Count(Consumptions(c), s.history) + One(c in s.store.codes) <= Count(Issues(c), s.history)
    && Count(Certificates(c), s.history) + Count(Refusals(c), s.history) + |SigningOn(s.attempts, c)|
       == Count(Consumptions(c), s.history)
  }

  ghost predicate SessionBalance(s: State, id: Bytes)
  {
    Count(Claims(id), s.history) + One(id in s.store.sessions) <= Count(Begins(id), s.history)
  }

  /** The rate limit: recent failures plus attempts that may still fail. */
  ghost predicate WindowBound(s: State)
  {
    && |Pending(s.attempts)| <= s.peak
    && |Recent(Failures(s.history), s.now)| + |Pending(s.attempts)| <= MAX_FAILURES - 1 + s.peak
  }

  ghost predicate Spaced(failures: seq<Time>, gap: nat)
  {
    forall i, j | 0 <= i && i + gap <= j < |failures| :: failures[j] - failures[i] >= FAILURE_WINDOW
  }

  ghost predicate InOrder(failures: seq<Time>, now: Time, peak: nat)
  {
    && Sorted(failures)
    && (forall i | 0 <= i < |failures| :: failures[i] <= now)
    && Spaced(failures, MAX_FAILURES - 1 + peak)
  }

  ghost predicate FailuresInOrder(s: State)
  {
    InOrder(Failures(s.history), s.now, s.peak)
  }

  /** The candidates of an attempt were the codes in force when it was admitted. */
  ghost predicate Candidates(h: seq<Event>, a: Attempt)
  {
    && a.born < |h| && h[a.born] == Claimed(a.session.id, a.admittedAt, true)
    && a.candidates == LiveCodes(Ledger(h[..a.born]), a.admittedAt).Keys
    && (forall c | c in a.candidates :: ValidCode(c))
    && |a.session.id| == SESSION_ID_LEN && |a.session.salt| == SALT_LEN
  }

  predicate OpenedBy(cfg: Config, a: Attempt, code: string)
  {
    code in a.candidates && Opens(code, a.session, CertHash(cfg.serverCert), a.csr, a.tag)
  }

  ghost predicate NoneOpens(cfg: Config, a: Attempt)
  {
    forall c | c in a.candidates :: !Opens(c, a.session, CertHash(cfg.serverCert), a.csr, a.tag)
  }

  ghost predicate AttemptSound(cfg: Config, h: seq<Event>, a: Attempt)
  {
    && Candidates(h, a)
    && (a.phase.Matched? ==> if a.phase.code == "" then NoneOpens(cfg, a) else OpenedBy(cfg, a, a.phase.code))
    && (a.phase.Signing? ==> OpenedBy(cfg, a, a.phase.code))
  }

  /** A certificate in the history is the one CertifyOp makes for that attempt. */
  predicate Issuance(cfg: Config, e: Event)
    requires e.Certified?
  {
    CertifyOp(cfg, e.code, e.attempt.session, e.attempt.csr, e.serial, e.signedAt, e.pad) == Ok(e.bundle)
  }

  ghost predicate EventSound(cfg: Config, h: seq<Event>, e: Event)
  {
    && (e.Consumed? || e.Lost? || e.Certified? || e.Withheld? ==>
          Candidates(h, e.attempt) && OpenedBy(cfg, e.attempt, e.code))
    && (e.Failed? ==> Candidates(h, e.attempt) && NoneOpens(cfg, e.attempt))
    && (e.Certified? ==> Issuance(cfg, e))
    && (e.Withheld? ==> !(CanSign(cfg) && Signable(e.attempt.csr)))
  }

  ghost predicate AttemptsSound(cfg: Config, h: seq<Event>, attempts: map<nat, Attempt>)
  {
    forall a | a in attempts :: AttemptSound(cfg, h, attempts[a])
  }

  ghost predicate HistorySound(cfg: Config, h: seq<Event>)
  {
    forall i | 0 <= i < |h| :: EventSound(cfg, h[..i], h[i])
  }

  ghost predicate Sound(cfg: Config, s: State)
  {
    AttemptsSound(cfg, s.history, s.attempts) && HistorySound(cfg, s.history)
  }

  ghost predicate Inv(cfg: Config, s: State)
  {
    && StoreTracks(s) && WellFormed(s) && WindowBound(s) && FailuresInOrder(s) && Sound(cfg, s)
    && (forall c :: CodeBalance(s, c))
    && (forall id :: SessionBalance(s, id))
  }

  // Preservation, piece by piece.

  /** Collecting at the clock leaves exactly what the eager store holds. */
  lemma CollectIsEager(s: State)
    requires StoreTracks(s)
    ensures Collect(s.store, s.now) == EagerStore(s.history, s.now)
  {
    var eager := EagerStore(s.history, s.now);
    assert LiveCodes(s.store.codes, s.now) == eager.codes;
    assert LiveSessions(s.store.sessions, s.now) == eager.sessions;
    RecentTwice(Failures(s.history), s.sweptAt, s.now);
  }

  lemma {:induction false} SubsetSize<T>(a: set<T>, b: set<T>)
    requires a <= b
    ensures |a| <= |b|
  {
    if a != {} {
      var x :| x in a;
      SubsetSize(a - {x}, b - {x});
    }
  }

  /** The part of the invariant about the store and what was handed out and spent. */
  ghost predicate Books(s: State)
  {
    && StoreTracks(s) && WellFormed(s)
    && (forall c :: CodeBalance(s, c))
    && (forall id :: SessionBalance(s, id))
  }

  /** The part about failures and attempts that may still fail. */
  ghost predicate Limits(s: State)
  {
    WindowBound(s) && FailuresInOrder(s)
  }

  lemma SweptBooks(s: State)
    requires Books(s)
    ensures Books(Swept(s))
  {
    var t := Swept(s);
    CollectIsEager(s);
    SubsetSize(t.store.sessions.Keys, s.store.sessions.Keys);
    forall c ensures CodeBalance(t, c) {
      assert CodeBalance(s, c);
    }
    forall id ensures SessionBalance(t, id) {
      assert SessionBalance(s, id);
    }
  }

  lemma TickBooks(s: State, to: Time)
    requires Books(s) && to >= s.now
    ensures Books(s.(now := to))
  {
    var t := s.(now := to);
    forall c ensures CodeBalance(t, c) {
      assert CodeBalance(s, c);
    }
    forall id ensures SessionBalance(t, id) {
      assert SessionBalance(s, id);
    }
  }

  /** Counting one more event. */
  lemma CodeCountsAfter(h: seq<Event>, e: Event, c: string)
    ensures Count(Issues(c), h + [e]) == Count(Issues(c), h) + One(e.Issued? && e.code == c)
    ensures Count(Consumptions(c), h + [e]) == Count(Consumptions(c), h) + One(e.Consumed? && e.code == c)
    ensures Count(Certificates(c), h + [e]) == Count(Certificates(c), h) + One(e.Certified? && e.code == c)
    ensures Count(Refusals(c), h + [e]) == Count(Refusals(c), h) + One(e.Withheld? && e.code == c)
  {
    CountSnoc(Issues(c), h, e);
    CountSnoc(Consumptions(c), h, e);
    CountSnoc(Certificates(c), h, e);
    CountSnoc(Refusals(c), h, e);
  }

  lemma SessionCountsAfter(h: seq<Event>, e: Event, id: Bytes)
    ensures Count(Begins(id), h + [e]) == Count(Begins(id), h) + One(e.Begun? && e.session.id == id)
    ensures Count(Claims(id), h + [e]) == Count(Claims(id), h) + One(e.Claimed? && e.id == id)
  {
    CountSnoc(Begins(id), h, e);
    CountSnoc(Claims(id), h, e);
  }

  /** The event pays for every change in who holds what. */
  ghost predicate Paid(s: State, e: Event, store: Store, attempts: map<nat, Attempt>)
  {
    && (forall c ::
      && One(c in store.codes) + One(e.Consumed? && e.code == c)
         <= One(c in s.store.codes) + One(e.Issued? && e.code == c)
      && |SigningOn(attempts, c)| + One((e.Certified? || e.Withheld?) && e.code == c)
         == |SigningOn(s.attempts, c)| + One(e.Consumed? && e.code == c))
    && (forall id ::
      One(id in store.sessions) + One(e.Claimed? && e.id == id)
      <= One(id in s.store.sessions) + One(e.Begun? && e.session.id == id))
  }

  /** A store and a history that move together keep the books. */
  lemma BooksMove(s: State, e: Event, store: Store, attempts: map<nat, Attempt>)
    requires Books(s)
    requires WellFormed(s.(store := store))
    requires StoreTracks(Logged(s, e).(store := store))
    requires Paid(s, e, store, attempts)
    ensures Books(Logged(s, e).(store := store, attempts := attempts))
  {
    var t := Logged(s, e).(store := store, attempts := attempts);
    forall c ensures CodeBalance(t, c) {
      assert CodeBalance(s, c);
      CodeCountsAfter(s.history, e, c);
    }
    forall id ensures SessionBalance(t, id) {
      assert SessionBalance(s, id);
      SessionCountsAfter(s.history, e, id);
    }
  }

  /** The attempts may change freely as long as nobody starts or stops signing. */
  lemma BooksIgnore(s: State, attempts: map<nat, Attempt>, peak: nat)
    requires Books(s) && forall c :: SigningOn(attempts, c) == SigningOn(s.attempts, c)
    ensures Books(s.(attempts := attempts, peak := peak))
  {
    var t := s.(attempts := attempts, peak := peak);
    forall c ensures CodeBalance(t, c) {
      assert CodeBalance(s, c);
    }
    forall id ensures SessionBalance(t, id) {
      assert SessionBalance(s, id);
    }
  }

  lemma IssueBooks(s: State, code: string, expiresAt: Time)
    requires Books(s) && ValidCode(code)
    ensures Books(Logged(s, Issued(code, expiresAt)).(store := s.store.(codes := s.store.codes[code := expiresAt])))
  {
    var e := Issued(code, expiresAt);
    HistorySnoc(s.history, e);
    BooksMove(s, e, s.store.(codes := s.store.codes[code := expiresAt]), s.attempts);
  }

  lemma BeginTracks(s: State, session: Session)
    requires StoreTracks(s)
    ensures var store := s.store.(sessions := s.store.sessions[session.id := session]);
            StoreTracks(Logged(s, Begun(session)).(store := store))
  {
    HistorySnoc(s.history, Begun(session));
  }

  lemma OneMoreSession(sessions: map<Bytes, Session>, session: Session)
    requires |sessions| < MAX_SESSIONS
    ensures |sessions[session.id := session]| <= MAX_SESSIONS
  {
    assert sessions[session.id := session].Keys == sessions.Keys + {session.id};
  }

  lemma BeginPaid(s: State, session: Session)
    ensures Paid(s, Begun(session), s.store.(sessions := s.store.sessions[session.id := session]), s.attempts)
  {
  }

  lemma BeginBooks(s: State, session: Session)
    requires Books(s) && |s.store.sessions| < MAX_SESSIONS
    requires |session.id| == SESSION_ID_LEN && |session.salt| == SALT_LEN
    ensures Books(Logged(s, Begun(session)).(store := s.store.(sessions := s.store.sessions[session.id := session])))
  {
    var store := s.store.(sessions := s.store.sessions[session.id := session]);
    OneMoreSession(s.store.sessions, session);
    BeginTracks(s, session);
    BeginPaid(s, session);
    assert WellFormed(s.(store := store));
    BooksMove(s, Begun(session), store, s.attempts);
  }

  lemma ClaimBooks(s: State, id: Bytes, admitted: bool)
    requires Books(s) && id in s.store.sessions
    ensures Books(Claiming(s, id, admitted))
  {
    HistorySnoc(s.history, Claimed(id, s.now, admitted));
    SubsetSize((s.store.sessions - {id}).Keys, s.store.sessions.Keys);
    BooksMove(s, Claimed(id, s.now, admitted), s.store.(sessions := s.store.sessions - {id}), s.attempts);
  }

  lemma FailBooks(s: State, attempts: map<nat, Attempt>, attempt: Attempt)
    requires Books(s) && forall c :: SigningOn(attempts, c) == SigningOn(s.attempts, c)
    ensures var store := s.store.(failures := s.store.failures + [s.now]);
            Books(Logged(s, Failed(s.now, attempt)).(store := store, attempts := attempts))
  {
    HistorySnoc(s.history, Failed(s.now, attempt));
    RecentSnoc(Failures(s.history), s.now, s.sweptAt);
    BooksMove(s, Failed(s.now, attempt), s.store.(failures := s.store.failures + [s.now]), attempts);
  }

  lemma LoseBooks(s: State, code: string, attempts: map<nat, Attempt>, attempt: Attempt)
    requires Books(s) && forall c :: SigningOn(attempts, c) == SigningOn(s.attempts, c)
    ensures Books(Logged(s, Lost(code, attempt)).(attempts := attempts))
  {
    HistorySnoc(s.history, Lost(code, attempt));
    BooksMove(s, Lost(code, attempt), s.store, attempts);
  }

  lemma ConsumeTracks(s: State, e: Event)
    requires StoreTracks(s) && e.Consumed?
    ensures StoreTracks(Logged(s, e).(store := s.store.(codes := s.store.codes - {e.code})))
  {
    HistorySnoc(s.history, e);
  }

  lemma SignerJoins(attempts: map<nat, Attempt>, a: nat, code: string, c: string)
    requires a in attempts && !attempts[a].phase.Signing?
    ensures var attempts' := attempts[a := attempts[a].(phase := Signing(code))];
            |SigningOn(attempts', c)| == |SigningOn(attempts, c)| + One(code == c)
  {
    var attempts' := attempts[a := attempts[a].(phase := Signing(code))];
    assert SigningOn(attempts', c) == SigningOn(attempts, c) + if code == c then {a} else {};
  }

  lemma ConsumePaid(s: State, a: nat, code: string)
    requires a in s.attempts && s.attempts[a].phase == Matched(code) && code in s.store.codes
    ensures Paid(s, Consumed(code, s.attempts[a]), s.store.(codes := s.store.codes - {code}),
                 s.attempts[a := s.attempts[a].(phase := Signing(code))])
  {
    forall c
      ensures var attempts := s.attempts[a := s.attempts[a].(phase := Signing(code))];
              |SigningOn(attempts, c)| == |SigningOn(s.attempts, c)| + One(code == c)
    {
      SignerJoins(s.attempts, a, code, c);
    }
  }

  lemma ConsumeBooks(s: State, a: nat, code: string)
    requires Books(s) && a in s.attempts && s.attempts[a].phase == Matched(code) && code in s.store.codes
    ensures Books(Logged(s, Consumed(code, s.attempts[a])).(
              store := s.store.(codes := s.store.codes - {code}),
              attempts := s.attempts[a := s.attempts[a].(phase := Signing(code))]))
  {
    var e := Consumed(code, s.attempts[a]);
    ConsumeTracks(s, e);
    ConsumePaid(s, a, code);
    BooksMove(s, e, s.store.(codes := s.store.codes - {code}), s.attempts[a := s.attempts[a].(phase := Signing(code))]);
  }

  lemma FinishBooks(s: State, a: nat)
    requires Books(s) && a in s.attempts && s.attempts[a].phase.Matched?
    ensures Books(FinishStep(s, a))
  {
    var code := s.attempts[a].phase.code;
    if code != "" && code in s.store.codes {
      ConsumeBooks(s, a, code);
    } else {
      var attempts := s.attempts - {a};
      assert forall c :: SigningOn(attempts, c) == SigningOn(s.attempts, c);
      if code == "" {
        FailBooks(s, attempts, s.attempts[a]);
      } else {
        LoseBooks(s, code, attempts, s.attempts[a]);
      }
    }
  }

  lemma SignerLeaves(attempts: map<nat, Attempt>, a: nat, c: string)
    requires a in attempts && attempts[a].phase.Signing?
    ensures |SigningOn(attempts - {a}, c)| + One(attempts[a].phase.code == c) == |SigningOn(attempts, c)|
  {
    if attempts[a].phase.code == c {
      assert SigningOn(attempts - {a}, c) == SigningOn(attempts, c) - {a};
      assert a in SigningOn(attempts, c);
    } else {
      assert SigningOn(attempts - {a}, c) == SigningOn(attempts, c);
    }
  }

  lemma CertifyPaid(s: State, a: nat, e: Event)
    requires a in s.attempts && s.attempts[a].phase.Signing?
    requires (e.Certified? || e.Withheld?) && e.code == s.attempts[a].phase.code
    ensures Paid(s, e, s.store, s.attempts - {a})
  {
    forall c
      ensures |SigningOn(s.attempts - {a}, c)| + One(e.code == c) == |SigningOn(s.attempts, c)|
    {
      SignerLeaves(s.attempts, a, c);
    }
  }

  lemma CertifyBooks(cfg: Config, s: State, a: nat, serial: nat, at: Time, pad: Pad)
    requires Books(s) && a in s.attempts && s.attempts[a].phase.Signing?
    ensures Books(CertifyStep(cfg, s, a, serial, at, pad))
  {
    var e := CertifyStep(cfg, s, a, serial, at, pad).history[|s.history|];
    HistorySnoc(s.history, e);
    CertifyPaid(s, a, e);
    assert StoreTracks(Logged(s, e));
    BooksMove(s, e, s.store, s.attempts - {a});
  }

  function Claiming(s: State, id: Bytes, admitted: bool): State
  {
    Logged(s, Claimed(id, s.now, admitted)).(store := s.store.(sessions := s.store.sessions - {id}))
  }

  /** Admission sweeps, then claims the session if it is open, then perhaps adds an attempt. */
  lemma AdmitShape(s: State, a: nat, id: Bytes, csr: Bytes, tag: Tag)
    requires a !in s.attempts
    ensures var t := AdmitStep(s, a, id, csr, tag);
            && t == (if id in Swept(s).store.sessions then Claiming(Swept(s), id, a in t.attempts) else Swept(s)).(
                      attempts := t.attempts, peak := t.peak)
            && (t.attempts == s.attempts
                || (a in t.attempts && t.attempts[a].phase.Waiting? && t.attempts == s.attempts[a := t.attempts[a]]))
            && (t.attempts != s.attempts ==> id in Swept(s).store.sessions)
  {
    var u := Swept(s);
    if id !in u.store.sessions {
      assert u.store.sessions - {id} == u.store.sessions;
    }
  }

  lemma SignersKept(attempts: map<nat, Attempt>, a: nat, attempt: Attempt)
    requires !attempt.phase.Signing? && (a in attempts ==> !attempts[a].phase.Signing?)
    ensures forall c :: SigningOn(attempts[a := attempt], c) == SigningOn(attempts, c)
  {
  }

  lemma AdmitBooks(s: State, a: nat, id: Bytes, csr: Bytes, tag: Tag)
    requires Books(s) && a !in s.attempts
    ensures Books(AdmitStep(s, a, id, csr, tag))
  {
    var t := AdmitStep(s, a, id, csr, tag);
    AdmitShape(s, a, id, csr, tag);
    SweptBooks(s);
    if t.attempts != s.attempts {
      SignersKept(s.attempts, a, t.attempts[a]);
    }
    if id in Swept(s).store.sessions {
      ClaimBooks(Swept(s), id, a in t.attempts);
      BooksIgnore(Claiming(Swept(s), id, a in t.attempts), t.attempts, t.peak);
    } else {
      BooksIgnore(Swept(s), t.attempts, t.peak);
    }
  }

  lemma IssueStepBooks(cfg: Config, s: State, n: nat, drawnAt: Time, ttl: Time)
    requires Books(s) && Enabled(s, Issue(n, drawnAt, ttl))
    ensures Books(Apply(cfg, s, Issue(n, drawnAt, ttl)))
  {
    SweptBooks(s);
    CodesAreEightDigits(n);
    IssueBooks(Swept(s), GenerateCode(n), CodeExpiry(drawnAt, ttl));
  }

  lemma BeginStepBooks(cfg: Config, s: State, id: Bytes, salt: Bytes, later: Time)
    requires Books(s) && Enabled(s, Begin(id, salt, later))
    ensures Books(Apply(cfg, s, Begin(id, salt, later)))
  {
    SweptBooks(s);
    var (_, result) := BeginOp(s.store, s.now, id, salt, later);
    if result.Ok? {
      BeginBooks(Swept(s), result.value);
    }
    TickBooks(Apply(cfg, s, Begin(id, salt, later)).(now := s.now), later);
  }

  lemma MatchBooks(cfg: Config, s: State, a: nat, order: seq<string>)
    requires Books(s) && Enabled(s, Match(a, order))
    ensures Books(Apply(cfg, s, Match(a, order)))
  {
    var t := Apply(cfg, s, Match(a, order));
    SignersKept(s.attempts, a, t.attempts[a]);
    BooksIgnore(s, t.attempts, s.peak);
  }

  lemma BooksStep(cfg: Config, s: State, step: Step)
    requires Enabled(s, step) && Books(s)
    ensures Books(Apply(cfg, s, step))
  {
    match step
    case Tick(to) => TickBooks(s, to);
    case Poll => SweptBooks(s);
    case Issue(n, drawnAt, ttl) => IssueStepBooks(cfg, s, n, drawnAt, ttl);
    case Begin(id, salt, later) => BeginStepBooks(cfg, s, id, salt, later);
    case Admit(a, id, csr, tag) => AdmitBooks(s, a, id, csr, tag);
    case Match(a, order) => MatchBooks(cfg, s, a, order);
    case Finish(a) => FinishBooks(s, a);
    case Certify(a, serial, at, pad) => CertifyBooks(cfg, s, a, serial, at, pad);
  }

  // Failures.

  /** An event that is no failure leaves the recorded failures alone. */
  lemma QuietEvent(h: seq<Event>, e: Event)
    requires !e.Failed?
    ensures Failures(h + [e]) == Failures(h)
  {
    HistorySnoc(h, e);
  }

  /** Steps that record no failure and move no attempt into the pending set keep the limits. */
  lemma QuietLimits(s: State, t: State)
    requires Limits(s) && Failures(t.history) == Failures(s.history) && t.now >= s.now
    requires |Pending(t.attempts)| <= |Pending(s.attempts)| && t.peak == s.peak
    ensures Limits(t)
  {
    RecentShrinks(Failures(s.history), s.now, t.now);
  }

  lemma AdmittedUnderLimit(s: State, a: nat, id: Bytes, csr: Bytes, tag: Tag)
    requires a !in s.attempts
    ensures var t := AdmitStep(s, a, id, csr, tag);
            && t.now == s.now && s.peak <= t.peak
            && (t.history == s.history || t.history == s.history + [Claimed(id, s.now, a in t.attempts)])
            && (t.attempts == s.attempts ==> t.peak == s.peak)
            && (t.attempts != s.attempts ==>
                  |Recent(s.store.failures, s.now)| < MAX_FAILURES && |Pending(t.attempts)| <= t.peak)
  {
  }

  lemma AdmitLimits(s: State, a: nat, id: Bytes, csr: Bytes, tag: Tag)
    requires Limits(s) && StoreTracks(s) && a !in s.attempts
    ensures Limits(AdmitStep(s, a, id, csr, tag))
  {
    var t := AdmitStep(s, a, id, csr, tag);
    AdmittedUnderLimit(s, a, id, csr, tag);
    QuietEvent(s.history, Claimed(id, s.now, a in t.attempts));
    RecentTwice(Failures(s.history), s.sweptAt, s.now);
    if t.attempts == s.attempts {
      QuietLimits(s, t);
    }
  }

  /** A new failure is a minute after any failure it has left behind the window. */
  lemma SpacedAfter(failures: seq<Time>, now: Time, gap: nat)
    requires Sorted(failures + [now]) && Spaced(failures, gap) && |Recent(failures + [now], now)| <= gap
    ensures Spaced(failures + [now], gap)
  {
    var all := failures + [now];
    forall i, j | 0 <= i && i + gap <= j < |all|
      ensures all[j] - all[i] >= FAILURE_WINDOW
    {
      if j == |failures| && now - all[i] < FAILURE_WINDOW {
        RecentIsTail(all, i, now);
      }
    }
  }

  lemma FailOrder(failures: seq<Time>, now: Time, peak: nat)
    requires InOrder(failures, now, peak)
    requires |Recent(failures, now)| + 1 <= MAX_FAILURES - 1 + peak
    ensures InOrder(failures + [now], now, peak)
  {
    RecentSnoc(failures, now, now);
    SpacedAfter(failures, now, MAX_FAILURES - 1 + peak);
  }

  lemma OneLessPending(attempts: map<nat, Attempt>, a: nat)
    requires a in Pending(attempts)
    ensures |Pending(attempts - {a})| == |Pending(attempts)| - 1
  {
    assert Pending(attempts - {a}) == Pending(attempts) - {a};
  }

  lemma FailLimits(s: State, a: nat, attempt: Attempt)
    requires Limits(s) && a in Pending(s.attempts)
    ensures Limits(Logged(s, Failed(s.now, attempt)).(attempts := s.attempts - {a}))
  {
    var failures := Failures(s.history);
    OneLessPending(s.attempts, a);
    HistorySnoc(s.history, Failed(s.now, attempt));
    RecentSnoc(failures, s.now, s.now);
    assert |Recent(failures + [s.now], s.now)| == |Recent(failures, s.now)| + 1;
    FailOrder(failures, s.now, s.peak);
  }

  /** An attempt that matched leaves the pending set and records no failure. */
  lemma MatchedLimits(s: State, a: nat)
    requires Limits(s) && a in s.attempts && s.attempts[a].phase.Matched? && s.attempts[a].phase.code != ""
    ensures Limits(FinishStep(s, a))
  {
    var t, at := FinishStep(s, a), s.attempts[a];
    QuietEvent(s.history, Consumed(at.phase.code, at));
    QuietEvent(s.history, Lost(at.phase.code, at));
    assert Pending(t.attempts) == Pending(s.attempts) - {a};
    QuietLimits(s, t);
  }

  lemma UnmatchedShape(s: State, a: nat)
    requires a in s.attempts && s.attempts[a].phase == Matched("")
    ensures FinishStep(s, a) == Logged(s, Failed(s.now, s.attempts[a])).(
              store := s.store.(failures := s.store.failures + [s.now]), attempts := s.attempts - {a})
  {
  }

  lemma FinishLimits(s: State, a: nat)
    requires Limits(s) && a in s.attempts && s.attempts[a].phase.Matched?
    ensures Limits(FinishStep(s, a))
  {
    if s.attempts[a].phase.code == "" {
      UnmatchedShape(s, a);
      FailLimits(s, a, s.attempts[a]);
    } else {
      MatchedLimits(s, a);
    }
  }

  lemma CertifyLimits(cfg: Config, s: State, a: nat, serial: nat, at: Time, pad: Pad)
    requires Limits(s) && a in s.attempts && s.attempts[a].phase.Signing?
    ensures Limits(CertifyStep(cfg, s, a, serial, at, pad))
  {
    var t := CertifyStep(cfg, s, a, serial, at, pad);
    QuietEvent(s.history, t.history[|s.history|]);
    assert Pending(t.attempts) == Pending(s.attempts);
    QuietLimits(s, t);
  }

  lemma BeginLimits(cfg: Config, s: State, id: Bytes, salt: Bytes, later: Time)
    requires Limits(s) && Enabled(s, Begin(id, salt, later))
    ensures Limits(Apply(cfg, s, Begin(id, salt, later)))
  {
    QuietEvent(s.history, Begun(Session(id, salt, later + DEFAULT_SESSION_TTL)));
    QuietLimits(s, Apply(cfg, s, Begin(id, salt, later)));
  }

  lemma IssueLimits(cfg: Config, s: State, n: nat, drawnAt: Time, ttl: Time)
    requires Limits(s) && Enabled(s, Issue(n, drawnAt, ttl))
    ensures Limits(Apply(cfg, s, Issue(n, drawnAt, ttl)))
  {
    QuietEvent(s.history, Issued(GenerateCode(n), CodeExpiry(drawnAt, ttl)));
    QuietLimits(s, Apply(cfg, s, Issue(n, drawnAt, ttl)));
  }

  lemma MatchLimits(cfg: Config, s: State, a: nat, order: seq<string>)
    requires Limits(s) && Enabled(s, Match(a, order))
    ensures Limits(Apply(cfg, s, Match(a, order)))
  {
    var t := Apply(cfg, s, Match(a, order));
    assert Pending(t.attempts) == Pending(s.attempts);
    QuietLimits(s, t);
  }

  lemma LimitsStep(cfg: Config, s: State, step: Step)
    requires Enabled(s, step) && Limits(s) && StoreTracks(s)
    ensures Limits(Apply(cfg, s, step))
  {
    match step
    case Tick(to) => QuietLimits(s, s.(now := to));
    case Poll => QuietLimits(s, Swept(s));
    case Issue(n, drawnAt, ttl) => IssueLimits(cfg, s, n, drawnAt, ttl);
    case Begin(id, salt, later) => BeginLimits(cfg, s, id, salt, later);
    case Admit(a, id, csr, tag) => AdmitLimits(s, a, id, csr, tag);
    case Match(a, order) => MatchLimits(cfg, s, a, order);
    case Finish(a) => FinishLimits(s, a);
    case Certify(a, serial, at, pad) => CertifyLimits(cfg, s, a, serial, at, pad);
  }

  // Attempts and events.

  lemma CandidatesLast(h: seq<Event>, e: Event, a: Attempt)
    requires Candidates(h, a)
    ensures Candidates(h + [e], a)
  {
    assert (h + [e])[..a.born] == h[..a.born];
  }

  lemma AttemptsLast(cfg: Config, h: seq<Event>, e: Event, attempts: map<nat, Attempt>)
    requires AttemptsSound(cfg, h, attempts)
    ensures AttemptsSound(cfg, h + [e], attempts)
  {
    forall a | a in attempts
      ensures AttemptSound(cfg, h + [e], attempts[a])
    {
      CandidatesLast(h, e, attempts[a]);
    }
  }

  lemma HistoryGrows(cfg: Config, h: seq<Event>, e: Event)
    requires HistorySound(cfg, h) && EventSound(cfg, h, e)
    ensures HistorySound(cfg, h + [e])
  {
    forall i | 0 <= i < |h + [e]|
      ensures EventSound(cfg, (h + [e])[..i], (h + [e])[i])
    {
      if i < |h| {
        assert (h + [e])[..i] == h[..i];
      } else {
        assert (h + [e])[..i] == h;
      }
    }
  }

  lemma LoggedSound(cfg: Config, s: State, e: Event)
    requires Sound(cfg, s) && EventSound(cfg, s.history, e)
    ensures AttemptsSound(cfg, s.history + [e], s.attempts) && HistorySound(cfg, s.history + [e])
  {
    AttemptsLast(cfg, s.history, e, s.attempts);
    HistoryGrows(cfg, s.history, e);
  }

  lemma NewAttempt(s: State, a: nat, id: Bytes, csr: Bytes, tag: Tag)
    requires StoreTracks(s) && WellFormed(s) && a !in s.attempts
    requires a in AdmitStep(s, a, id, csr, tag).attempts
    ensures Candidates(s.history + [Claimed(id, s.now, true)], AdmitStep(s, a, id, csr, tag).attempts[a])
  {
    CollectIsEager(s);
    var h := s.history + [Claimed(id, s.now, true)];
    assert h[..|s.history|] == s.history;
  }

  lemma AddAttempt(cfg: Config, h: seq<Event>, attempts: map<nat, Attempt>, a: nat, attempt: Attempt)
    requires AttemptsSound(cfg, h, attempts) && Candidates(h, attempt) && attempt.phase.Waiting?
    ensures AttemptsSound(cfg, h, attempts[a := attempt])
  {
  }

  lemma AdmitSound(cfg: Config, s: State, a: nat, id: Bytes, csr: Bytes, tag: Tag)
    requires Sound(cfg, s) && StoreTracks(s) && WellFormed(s) && a !in s.attempts
    ensures Sound(cfg, AdmitStep(s, a, id, csr, tag))
  {
    var t := AdmitStep(s, a, id, csr, tag);
    AdmitShape(s, a, id, csr, tag);
    LoggedSound(cfg, s, Claimed(id, s.now, a in t.attempts));
    if t.attempts != s.attempts {
      NewAttempt(s, a, id, csr, tag);
      AddAttempt(cfg, t.history, s.attempts, a, t.attempts[a]);
    }
  }

  lemma MatchSound(cfg: Config, s: State, a: nat, order: seq<string>)
    requires Sound(cfg, s) && Enabled(s, Match(a, order))
    ensures Sound(cfg, Apply(cfg, s, Match(a, order)))
  {
    var at := s.attempts[a];
    assert AttemptSound(cfg, s.history, at);
    assert forall i | 0 <= i < |order| :: order[i] in order;
    MatchLoopFinds(order, at.session, CertHash(cfg.serverCert), at.csr, at.tag);
  }

  lemma FinishSound(cfg: Config, s: State, a: nat)
    requires Sound(cfg, s) && a in s.attempts && s.attempts[a].phase.Matched?
    ensures Sound(cfg, FinishStep(s, a))
  {
    var at := s.attempts[a];
    assert AttemptSound(cfg, s.history, at);
    if at.phase.code == "" {
      LoggedSound(cfg, s, Failed(s.now, at));
    } else if at.phase.code in s.store.codes {
      LoggedSound(cfg, s, Consumed(at.phase.code, at));
      CandidatesLast(s.history, Consumed(at.phase.code, at), at);
    } else {
      LoggedSound(cfg, s, Lost(at.phase.code, at));
    }
  }

  lemma CertifySound(cfg: Config, s: State, a: nat, serial: nat, at: Time, pad: Pad)
    requires Sound(cfg, s) && a in s.attempts && s.attempts[a].phase.Signing?
    ensures Sound(cfg, CertifyStep(cfg, s, a, serial, at, pad))
  {
    assert AttemptSound(cfg, s.history, s.attempts[a]);
    var t, attempt := CertifyStep(cfg, s, a, serial, at, pad), s.attempts[a];
    CertifyExactly(cfg, attempt.phase.code, attempt.session, attempt.csr, serial, at, pad);
    LoggedSound(cfg, s, t.history[|s.history|]);
  }

  lemma BeginShape(cfg: Config, s: State, id: Bytes, salt: Bytes, later: Time)
    requires Enabled(s, Begin(id, salt, later))
    ensures var t := Apply(cfg, s, Begin(id, salt, later));
            var session := Session(id, salt, later + DEFAULT_SESSION_TTL);
            && t.attempts == s.attempts && t.peak == s.peak
            && (t.history == s.history || t.history == s.history + [Begun(session)])
  {
  }

  lemma BeginSound(cfg: Config, s: State, id: Bytes, salt: Bytes, later: Time)
    requires Enabled(s, Begin(id, salt, later)) && Sound(cfg, s)
    ensures Sound(cfg, Apply(cfg, s, Begin(id, salt, later)))
  {
    BeginShape(cfg, s, id, salt, later);
    LoggedSound(cfg, s, Begun(Session(id, salt, later + DEFAULT_SESSION_TTL)));
  }

  lemma SoundStep(cfg: Config, s: State, step: Step)
    requires Enabled(s, step) && Sound(cfg, s) && StoreTracks(s) && WellFormed(s)
    ensures Sound(cfg, Apply(cfg, s, step))
  {
    match step
    case Admit(a, id, csr, tag) => AdmitSound(cfg, s, a, id, csr, tag);
    case Match(a, order) => MatchSound(cfg, s, a, order);
    case Finish(a) => FinishSound(cfg, s, a);
    case Certify(a, serial, at, pad) => CertifySound(cfg, s, a, serial, at, pad);
    case Issue(n, drawnAt, ttl) =>
      LoggedSound(cfg, s, Issued(GenerateCode(n), CodeExpiry(drawnAt, ttl)));
    case Begin(id, salt, later) => BeginSound(cfg, s, id, salt, later);
    case _ =>
  }

  // Every run.

  lemma InvStep(cfg: Config, s: State, step: Step)
    requires Enabled(s, step) && Inv(cfg, s)
    ensures Inv(cfg, Apply(cfg, s, step))
  {
    BooksStep(cfg, s, step);
    LimitsStep(cfg, s, step);
    SoundStep(cfg, s, step);
  }

  lemma InvInitial(cfg: Config, start: Time)
    ensures Inv(cfg, Initial(start))
  {
    var s := Initial(start);
    assert Pending(s.attempts) == {};
    forall c ensures CodeBalance(s, c) {
      assert SigningOn(s.attempts, c) == {};
    }
  }

  lemma {:induction false} InvAlways(cfg: Config, start: Time, steps: seq<Step>)
    requires Exec(cfg, start, steps).Some?
    ensures Inv(cfg, Exec(cfg, start, steps).value)
  {
    if steps == [] {
      InvInitial(cfg, start);
    } else {
      var n := |steps| - 1;
      InvAlways(cfg, start, steps[..n]);
      InvStep(cfg, Exec(cfg, start, steps[..n]).value, steps[n]);
    }
  }

  // Main results.

  /** Lazy collection is invisible: whatever a locked section sees after collecting is what an
      eager coordinator would hold, a function of the history and the clock alone. */
  lemma LazyIsEager(cfg: Config, start: Time, steps: seq<Step>, s: State)
    requires Exec(cfg, start, steps) == Some(s)
    ensures Collect(s.store, s.now) == EagerStore(s.history, s.now)
  {
    InvAlways(cfg, start, steps);
    CollectIsEager(s);
  }

  lemma CodesInForceAreValid(cfg: Config, start: Time, steps: seq<Step>, s: State)
    requires Exec(cfg, start, steps) == Some(s)
    ensures forall c | c in EagerStore(s.history, s.now).codes :: ValidCode(c)
  {
    InvAlways(cfg, start, steps);
    CollectIsEager(s);
    assert forall c | c in Collect(s.store, s.now).codes :: c in s.store.codes;
  }

  /** The ledger in the words of the design: a code is in it with the expiry of its latest issue,
      and only if it was not consumed since. */
  ghost predicate LatestIssue(h: seq<Event>, code: string, expiresAt: Time, i: int)
  {
    && 0 <= i < |h| && h[i] == Issued(code, expiresAt)
    && forall k | i < k < |h| :: !((h[k].Issued? || h[k].Consumed?) && h[k].code == code)
  }

  lemma {:induction false} LedgerMeans(h: seq<Event>, code: string, expiresAt: Time)
    ensures code in Ledger(h) && Ledger(h)[code] == expiresAt <==> exists i :: LatestIssue(h, code, expiresAt, i)
  {
    if h != [] {
      var n := |h| - 1;
      var front, last := h[..n], h[n];
      LedgerMeans(front, code, expiresAt);
      if (last.Issued? || last.Consumed?) && last.code == code {
        if last == Issued(code, expiresAt) {
          assert LatestIssue(h, code, expiresAt, n);
        }
      } else {
        if i :| LatestIssue(front, code, expiresAt, i) {
          assert LatestIssue(h, code, expiresAt, i);
        }
        if i :| LatestIssue(h, code, expiresAt, i) {
          assert LatestIssue(front, code, expiresAt, i);
        }
      }
    }
  }

  /** Likewise for sessions: open is the latest opening that nobody claimed since. */
  ghost predicate LatestOpening(h: seq<Event>, id: Bytes, session: Session, i: int)
  {
    && 0 <= i < |h| && session.id == id && h[i] == Begun(session)
    && forall k | i < k < |h| :: !(h[k].Begun? && h[k].session.id == id) && !(h[k].Claimed? && h[k].id == id)
  }

  lemma {:induction false} OpeningsMeans(h: seq<Event>, id: Bytes, session: Session)
    ensures id in Openings(h) && Openings(h)[id] == session <==> exists i :: LatestOpening(h, id, session, i)
  {
    if h != [] {
      var n := |h| - 1;
      var front, last := h[..n], h[n];
      OpeningsMeans(front, id, session);
      if (last.Begun? && last.session.id == id) || (last.Claimed? && last.id == id) {
        if last == Begun(session) {
          assert LatestOpening(h, id, session, n);
        }
      } else {
        if i :| LatestOpening(front, id, session, i) {
          assert LatestOpening(h, id, session, i);
        }
        if i :| LatestOpening(h, id, session, i) {
          assert LatestOpening(front, id, session, i);
        }
      }
    }
  }

  /** Certificates, consumptions and issues of one code, over every interleaving. */
  lemma CodesAreConserved(cfg: Config, start: Time, steps: seq<Step>, s: State, code: string)
    requires Exec(cfg, start, steps) == Some(s)
    ensures Count(Certificates(code), s.history) + Count(Refusals(code), s.history) + |SigningOn(s.attempts, code)|
            == Count(Consumptions(code), s.history)
    ensures Count(Consumptions(code), s.history) + One(code in s.store.codes) <= Count(Issues(code), s.history)
  {
    InvAlways(cfg, start, steps);
    assert CodeBalance(s, code);
  }

  /** A session is claimed at most as often as it was opened, and 32 are open at most. */
  lemma SessionsAreConserved(cfg: Config, start: Time, steps: seq<Step>, s: State, id: Bytes)
    requires Exec(cfg, start, steps) == Some(s)
    ensures Count(Claims(id), s.history) + One(id in s.store.sessions) <= Count(Begins(id), s.history)
    ensures |s.store.sessions| <= 32
    ensures id in s.store.sessions ==> |id| == 16 && s.store.sessions[id].id == id && |s.store.sessions[id].salt| == 16
  {
    InvAlways(cfg, start, steps);
    assert SessionBalance(s, id);
  }

  lemma ConsumedInHistory(cfg: Config, h: seq<Event>, i: nat)
    requires HistorySound(cfg, h) && i < |h| && h[i].Consumed?
    ensures var a := h[i].attempt;
            && a.born < i && h[a.born] == Claimed(a.session.id, a.admittedAt, true)
            && h[i].code in LiveCodes(Ledger(h[..a.born]), a.admittedAt) && OpenedBy(cfg, a, h[i].code)
  {
    assert EventSound(cfg, h[..i], h[i]);
    assert h[..i][..h[i].attempt.born] == h[..h[i].attempt.born];
  }

  /** Whenever a code was consumed, it was in force at the instant its attempt was admitted, and
      the attempt's MAC was made with it. */
  lemma ConsumedCodesWereLive(cfg: Config, start: Time, steps: seq<Step>, s: State, i: nat)
    requires Exec(cfg, start, steps) == Some(s) && i < |s.history| && s.history[i].Consumed?
    ensures var e, a := s.history[i], s.history[i].attempt;
            && a.born < i && s.history[a.born] == Claimed(a.session.id, a.admittedAt, true)
            && e.code in LiveCodes(Ledger(s.history[..a.born]), a.admittedAt)
            && Opens(e.code, a.session, CertHash(cfg.serverCert), a.csr, a.tag)
  {
    InvAlways(cfg, start, steps);
    ConsumedInHistory(cfg, s.history, i);
  }

  /** Never more than `bound` attempts between admission and finish, at any point of the run. */
  ghost predicate NeverMorePending(cfg: Config, start: Time, steps: seq<Step>, bound: nat)
    requires Exec(cfg, start, steps).Some?
  {
    forall k | 0 <= k <= |steps| :: Exec(cfg, start, steps[..k]).Some? ==>
      |Pending(Exec(cfg, start, steps[..k]).value.attempts)| <= bound
  }

  lemma {:induction false} PeakIsReached(cfg: Config, start: Time, steps: seq<Step>, bound: nat)
    requires Exec(cfg, start, steps).Some? && NeverMorePending(cfg, start, steps, bound)
    ensures Exec(cfg, start, steps).value.peak <= bound
  {
    if steps != [] {
      var n := |steps| - 1;
      forall k | 0 <= k <= n && Exec(cfg, start, steps[..n][..k]).Some?
        ensures |Pending(Exec(cfg, start, steps[..n][..k]).value.attempts)| <= bound
      {
        assert steps[..n][..k] == steps[..k];
      }
      PeakIsReached(cfg, start, steps[..n], bound);
      assert steps[..|steps|] == steps;
    }
  }

  /** The rate limit as a fact about runs: when at most `bound` attempts ever overlap, any
      5 + bound consecutive failures span a minute or more. */
  lemma FailuresAreSpaced(cfg: Config, start: Time, steps: seq<Step>, s: State, bound: nat, i: nat)
    requires Exec(cfg, start, steps) == Some(s) && NeverMorePending(cfg, start, steps, bound)
    requires i + MAX_FAILURES - 1 + bound < |Failures(s.history)|
    ensures Failures(s.history)[i + MAX_FAILURES - 1 + bound] - Failures(s.history)[i] >= FAILURE_WINDOW
  {
    PeakIsReached(cfg, start, steps, bound);
    InvAlways(cfg, start, steps);
    assert i + (MAX_FAILURES - 1 + s.peak) <= i + MAX_FAILURES - 1 + bound;
  }

  /** A recorded failure is genuine: in every run, finishing an attempt records one exactly when no
      code that was in force at its admission had made its MAC. */
  lemma FailuresAreGenuine(cfg: Config, start: Time, steps: seq<Step>, s: State, a: nat)
    requires Exec(cfg, start, steps) == Some(s) && Enabled(s, Finish(a))
    ensures var at := s.attempts[a];
            at.born < |s.history| && s.history[at.born] == Claimed(at.session.id, at.admittedAt, true)
    ensures var at, t := s.attempts[a], Apply(cfg, s, Finish(a));
            var inForce := LiveCodes(Ledger(s.history[..at.born]), at.admittedAt);
            var genuine := forall c | c in inForce :: !Opens(c, at.session, CertHash(cfg.serverCert), at.csr, at.tag);
            && |t.history| == |s.history| + 1
            && (t.history[|s.history|].Failed? <==> genuine)
            && (t.store.failures == if genuine then s.store.failures + [s.now] else s.store.failures)
  {
    InvAlways(cfg, start, steps);
    FinishIsGenuine(cfg, s, a);
  }

  lemma FinishIsGenuine(cfg: Config, s: State, a: nat)
    requires Sound(cfg, s) && a in s.attempts && s.attempts[a].phase.Matched?
    ensures Candidates(s.history, s.attempts[a])
    ensures var t := FinishStep(s, a);
            && |t.history| == |s.history| + 1
            && (t.history[|s.history|].Failed? <==> NoneOpens(cfg, s.attempts[a]))
            && (t.store.failures
                == if NoneOpens(cfg, s.attempts[a]) then s.store.failures + [s.now] else s.store.failures)
  {
    assert AttemptSound(cfg, s.history, s.attempts[a]);
  }

  /** What Begin answers, in terms of the history: no code in force, then five failures within the
      minute, then 32 sessions in force, and otherwise a session open for sixty seconds. */
  lemma BeginAnswers(cfg: Config, start: Time, steps: seq<Step>, s: State, id: Bytes, salt: Bytes, later: Time)
    requires Exec(cfg, start, steps) == Some(s)
    ensures var eager := EagerStore(s.history, s.now);
            var (store, result) := BeginOp(s.store, s.now, id, salt, later);
            && (result == Err(NoActiveCode) <==> eager.codes == map[])
            && (result == Err(TooManyAttempts) <==> eager.codes != map[] && |eager.failures| >= 5)
            && (result == Err(Busy) <==> eager.codes != map[] && |eager.failures| < 5 && |eager.sessions| >= 32)
            && (result.Ok? <==> eager.codes != map[] && |eager.failures| < 5 && |eager.sessions| < 32)
            && (result.Ok? ==> result.value == Session(id, salt, later + MINUTE)
                               && store == eager.(sessions := eager.sessions[id := result.value]))
            && (result.Err? ==> store == eager)
  {
    LazyIsEager(cfg, start, steps, s);
  }

  /** What the admission half of Complete answers. The session is gone afterwards in every case. */
  lemma AdmitAnswers(cfg: Config, start: Time, steps: seq<Step>, s: State, id: Bytes)
    requires Exec(cfg, start, steps) == Some(s)
    ensures var eager := EagerStore(s.history, s.now);
            var (store, admission) := AdmitOp(s.store, s.now, id);
            && (admission == Refused(UnknownSession) <==> id !in eager.sessions)
            && (admission == Refused(TooManyAttempts) <==> id in eager.sessions && |eager.failures| >= 5)
            && (admission.Admitted? <==> id in eager.sessions && |eager.failures| < 5)
            && (admission.Admitted? ==> admission == Admitted(eager.sessions[id], eager.codes.Keys))
            && store == eager.(sessions := eager.sessions - {id})
  {
    LazyIsEager(cfg, start, steps, s);
  }

  /** Every admitted attempt is still pending, or recorded a failure, or spent a code, or found its
      code gone: exactly one of these. */
  ghost predicate AttemptBalance(s: State)
  {
    Count(Admissions, s.history)
    == Count(FailedAttempts, s.history) + Count(SpentCodes, s.history) + Count(LostCodes, s.history)
    + |Pending(s.attempts)|
  }

  /** One more event, where the attempts keep pace with it. */
  lemma AttemptBalanceMoves(s: State, e: Event, t: State)
    requires AttemptBalance(s) && t.history == s.history + [e]
    requires |Pending(t.attempts)| + One(e.Failed? || e.Consumed? || e.Lost?)
             == |Pending(s.attempts)| + One(e.Claimed? && e.admitted)
    ensures AttemptBalance(t)
  {
    CountSnoc(Admissions, s.history, e);
    CountSnoc(FailedAttempts, s.history, e);
    CountSnoc(SpentCodes, s.history, e);
    CountSnoc(LostCodes, s.history, e);
  }

  lemma AdmitBalance(s: State, a: nat, id: Bytes, csr: Bytes, tag: Tag)
    requires AttemptBalance(s) && a !in s.attempts
    ensures AttemptBalance(AdmitStep(s, a, id, csr, tag))
  {
    var t := AdmitStep(s, a, id, csr, tag);
    AdmitShape(s, a, id, csr, tag);
    if t.attempts != s.attempts {
      assert Pending(t.attempts) == Pending(s.attempts) + {a};
    }
    if t.history != s.history {
      AttemptBalanceMoves(s, Claimed(id, s.now, a in t.attempts), t);
    }
  }

  lemma FinishBalance(s: State, a: nat)
    requires AttemptBalance(s) && a in s.attempts && s.attempts[a].phase.Matched?
    ensures AttemptBalance(FinishStep(s, a))
  {
    var t := FinishStep(s, a);
    assert Pending(t.attempts) == Pending(s.attempts) - {a};
    assert a in Pending(s.attempts);
    AttemptBalanceMoves(s, t.history[|s.history|], t);
  }

  lemma BalanceStep(cfg: Config, s: State, step: Step)
    requires Enabled(s, step) && AttemptBalance(s)
    ensures AttemptBalance(Apply(cfg, s, step))
  {
    var t := Apply(cfg, s, step);
    match step
    case Admit(a, id, csr, tag) => AdmitBalance(s, a, id, csr, tag);
    case Finish(a) => FinishBalance(s, a);
    case Match(a, _) => assert Pending(t.attempts) == Pending(s.attempts);
    case Certify(a, _, _, _) =>
      assert Pending(t.attempts) == Pending(s.attempts);
      AttemptBalanceMoves(s, t.history[|s.history|], t);
    case Issue(n, drawnAt, ttl) => AttemptBalanceMoves(s, t.history[|s.history|], t);
    case Begin(id, salt, later) =>
      BeginShape(cfg, s, id, salt, later);
      if t.history != s.history {
        AttemptBalanceMoves(s, t.history[|s.history|], t);
      }
    case _ =>
  }

  /** Attempts are conserved over every interleaving, so no failed attempt goes unrecorded. */
  lemma {:induction false} AttemptsAreConserved(cfg: Config, start: Time, steps: seq<Step>, s: State)
    requires Exec(cfg, start, steps) == Some(s)
    ensures Count(Admissions, s.history)
            == Count(FailedAttempts, s.history) + Count(SpentCodes, s.history) + Count(LostCodes, s.history)
               + |Pending(s.attempts)|
    ensures Count(FailedAttempts, s.history) == |Failures(s.history)|
  {
    FailuresCounted(s.history);
    if steps == [] {
      assert Pending(s.attempts) == {};
    } else {
      var n := |steps| - 1;
      var before := Exec(cfg, start, steps[..n]).value;
      AttemptsAreConserved(cfg, start, steps[..n], before);
      BalanceStep(cfg, before, steps[n]);
    }
  }

  lemma {:induction false} FailuresCounted(h: seq<Event>)
    ensures Count(FailedAttempts, h) == |Failures(h)|
  {
    if h != [] {
      FailuresCounted(h[..|h| - 1]);
    }
  }
}
