/** The Pairer as a concurrent system: every locked section is one step, and attempts to complete
    a pairing sit between their two locked halves while other steps run. */
module PairerSteps {
  import opened Terms
  import opened Messages
  import opened PairerModel

  datatype Phase = Waiting | Matched(code: string) | Signing(code: string)

  /** One call of Complete that has been admitted. `born` is the length of the history then. */
  datatype Attempt = Attempt(
    session: Session,
    csr: Bytes,
    tag: Tag,
    candidates: set<string>,
    admittedAt: Time,
    born: nat,
    phase: Phase)

  datatype Event =
    | Issued(code: string, expiresAt: Time)
    | Begun(session: Session)
    | Claimed(id: Bytes, at: Time, admitted: bool)
    | Failed(at: Time, attempt: Attempt)
    | Lost(code: string, attempt: Attempt)
    | Consumed(code: string, attempt: Attempt)
    | Certified(code: string, attempt: Attempt, bundle: Bundle, serial: nat, signedAt: Time, pad: Pad)
    | Withheld(code: string, attempt: Attempt)

  /** `sweptAt` is the instant of the last collection and `sweptLen` the length of the history then;
      `peak` is the largest number of attempts that were ever between admission and finish at once. */
  datatype State = State(
    store: Store,
    now: Time,
    attempts: map<nat, Attempt>,
    history: seq<Event>,
    sweptAt: Time,
    sweptLen: nat,
    peak: nat)

  datatype Step =
    | Tick(to: Time)
    | Issue(n: nat, drawnAt: Time, ttl: Time)
    | Poll
    | Begin(id: Bytes, salt: Bytes, later: Time)
    | Admit(a: nat, id: Bytes, csr: Bytes, tag: Tag)
    | Match(a: nat, order: seq<string>)
    | Finish(a: nat)
    | Certify(a: nat, serial: nat, at: Time, pad: Pad)

  function Initial(now: Time): State
  {
    State(Store(map[], map[], []), now, map[], [], now, 0, 0)
  }

  ghost predicate Enabled(s: State, step: Step)
  {
    match step
    case Tick(to) => to >= s.now
    case Issue(n, drawnAt, ttl) => n < CODE_SPACE && drawnAt <= s.now
    case Poll => true
    case Begin(id, salt, later) => |id| == SESSION_ID_LEN && |salt| == SALT_LEN && later >= s.now
    case Admit(a, id, csr, tag) => a !in s.attempts
    case Match(a, order) =>
      a in s.attempts && s.attempts[a].phase.Waiting? && Enumerates(order, s.attempts[a].candidates)
    case Finish(a) => a in s.attempts && s.attempts[a].phase.Matched?
    case Certify(a, serial, at, pad) => a in s.attempts && s.attempts[a].phase.Signing?
  }

  /** Attempts between their two locked halves. */
  ghost function Pending(attempts: map<nat, Attempt>): set<nat>
  {
    set a | a in attempts && !attempts[a].phase.Signing?
  }

  function Max(x: nat, y: nat): nat
  {
    if x < y then y else x
  }

  function Logged(s: State, e: Event): State
  {
    s.(history := s.history + [e])
  }

  function Swept(s: State): State
  {
    s.(store := Collect(s.store, s.now), sweptAt := s.now, sweptLen := |s.history|)
  }

  ghost function AdmitStep(s: State, a: nat, id: Bytes, csr: Bytes, tag: Tag): State
  {
    var (store, admission) := AdmitOp(s.store, s.now, id);
    var t := Swept(s).(store := store);
    match admission
    case Refused(UnknownSession) => t
    case Refused(_) => Logged(t, Claimed(id, s.now, false))
    case Admitted(session, candidates) =>
      var attempt := Attempt(session, csr, tag, candidates, s.now, |s.history|, Waiting);
      var attempts := s.attempts[a := attempt];
      Logged(t, Claimed(id, s.now, true)).(attempts := attempts, peak := Max(s.peak, |Pending(attempts)|))
  }

  function FinishStep(s: State, a: nat): State
    requires a in s.attempts && s.attempts[a].phase.Matched?
  {
    var attempt := s.attempts[a];
    var code := attempt.phase.code;
    var (store, verdict) := FinishOp(s.store, s.now, code);
    var t := s.(store := store);
    match verdict
    case Spent => Logged(t, Consumed(code, attempt)).(attempts := s.attempts[a := attempt.(phase := Signing(code))])
    case Rejected =>
      var e := if code == "" then Failed(s.now, attempt) else Lost(code, attempt);
      Logged(t, e).(attempts := s.attempts - {a})
  }

  function CertifyStep(cfg: Config, s: State, a: nat, serial: nat, at: Time, pad: Pad): State
    requires a in s.attempts && s.attempts[a].phase.Signing?
  {
    var attempt := s.attempts[a];
    var code := attempt.phase.code;
    var result := CertifyOp(cfg, code, attempt.session, attempt.csr, serial, at, pad);
    var e := if result.Ok? then Certified(code, attempt, result.value, serial, at, pad) else Withheld(code, attempt);
    Logged(s, e).(attempts := s.attempts - {a})
  }

  ghost function Apply(cfg: Config, s: State, step: Step): State
    requires Enabled(s, step)
  {
    match step
    case Tick(to) => s.(now := to)
    case Poll => Swept(s)
    case Issue(n, drawnAt, ttl) =>
      var code, expiresAt := GenerateCode(n), CodeExpiry(drawnAt, ttl);
      Logged(Swept(s), Issued(code, expiresAt)).(store := IssueOp(s.store, s.now, code, expiresAt))
    case Begin(id, salt, later) =>
      var (store, result) := BeginOp(s.store, s.now, id, salt, later);
      var t := Swept(s).(store := store);
      (if result.Ok? then Logged(t, Begun(result.value)) else t).(now := later)
    case Admit(a, id, csr, tag) => AdmitStep(s, a, id, csr, tag)
    case Match(a, order) =>
      var attempt := s.attempts[a];
      var m := MatchLoop(order, attempt.session, CertHash(cfg.serverCert), attempt.csr, attempt.tag);
      s.(attempts := s.attempts[a := attempt.(phase := Matched(m))])
    case Finish(a) => FinishStep(s, a)
    case Certify(a, serial, at, pad) => CertifyStep(cfg, s, a, serial, at, pad)
  }

  /** The state after a run, or nothing when some step was not possible. */
  ghost function Exec(cfg: Config, start: Time, steps: seq<Step>): Option<State>
  {
    if steps == [] then Some(Initial(start))
    else
      var n := |steps| - 1;
      match Exec(cfg, start, steps[..n])
      case None => None
      case Some(s) => if Enabled(s, steps[n]) then Some(Apply(cfg, s, steps[n])) else None
  }

  lemma ExecSnoc(cfg: Config, start: Time, steps: seq<Step>, step: Step)
    requires Exec(cfg, start, steps).Some? && Enabled(Exec(cfg, start, steps).value, step)
    ensures Exec(cfg, start, steps + [step]) == Some(Apply(cfg, Exec(cfg, start, steps).value, step))
  {
    assert (steps + [step])[..|steps|] == steps;
  }

  lemma HistoryExtends(cfg: Config, s: State, step: Step)
    requires Enabled(s, step)
    ensures s.history <= Apply(cfg, s, step).history
    ensures |Apply(cfg, s, step).history| <= |s.history| + 1
  {
  }

  /** More steps, from any state. */
  ghost function RunFrom(cfg: Config, s: State, steps: seq<Step>): Option<State>
  {
    if steps == [] then Some(s)
    else
      var n := |steps| - 1;
      match RunFrom(cfg, s, steps[..n])
      case None => None
      case Some(t) => if Enabled(t, steps[n]) then Some(Apply(cfg, t, steps[n])) else None
  }

  lemma {:induction false} ExecContinues(cfg: Config, start: Time, steps: seq<Step>, s: State, more: seq<Step>)
    requires Exec(cfg, start, steps) == Some(s)
    ensures Exec(cfg, start, steps + more) == RunFrom(cfg, s, more)
  {
    if more == [] {
      assert steps + more == steps;
    } else {
      var n := |more| - 1;
      ExecContinues(cfg, start, steps, s, more[..n]);
      assert (steps + more)[..|steps + more| - 1] == steps + more[..n];
    }
  }

  // What the history says.

  datatype Query =
    | Issues(code: string) | Consumptions(code: string) | Certificates(code: string) | Refusals(code: string)
    | Begins(id: Bytes) | Claims(id: Bytes)
    | Admissions | FailedAttempts | SpentCodes | LostCodes

  predicate Answers(q: Query, e: Event)
  {
    match q
    case Issues(c) => e.Issued? && e.code == c
    case Consumptions(c) => e.Consumed? && e.code == c
    case Certificates(c) => e.Certified? && e.code == c
    case Refusals(c) => e.Withheld? && e.code == c
    case Begins(id) => e.Begun? && e.session.id == id
    case Claims(id) => e.Claimed? && e.id == id
    case Admissions => e.Claimed? && e.admitted
    case FailedAttempts => e.Failed?
    case SpentCodes => e.Consumed?
    case LostCodes => e.Lost?
  }

  function Count(q: Query, h: seq<Event>): nat
  {
    if h == [] then 0 else Count(q, h[..|h| - 1]) + if Answers(q, h[|h| - 1]) then 1 else 0
  }

  /** Each code's latest issue that nobody consumed since, expired or not. */
  function Ledger(h: seq<Event>): map<string, Time>
  {
    if h == [] then map[] else LedgerAfter(Ledger(h[..|h| - 1]), h[|h| - 1])
  }

  function LedgerAfter(m: map<string, Time>, e: Event): map<string, Time>
  {
    if e.Issued? then m[e.code := e.expiresAt] else if e.Consumed? then m - {e.code} else m
  }

  /** Each session's latest opening that nobody claimed since, expired or not. */
  function Openings(h: seq<Event>): map<Bytes, Session>
  {
    if h == [] then map[] else OpeningsAfter(Openings(h[..|h| - 1]), h[|h| - 1])
  }

  function OpeningsAfter(m: map<Bytes, Session>, e: Event): map<Bytes, Session>
  {
    if e.Begun? then m[e.session.id := e.session] else if e.Claimed? then m - {e.id} else m
  }

  /** The instants of all recorded failures, in order. */
  function Failures(h: seq<Event>): seq<Time>
  {
    if h == [] then [] else Failures(h[..|h| - 1]) + if h[|h| - 1].Failed? then [h[|h| - 1].at] else []
  }

  /** The store an eager coordinator would hold: everything in force at `now`, and nothing else. A
      code or session is in force up to and including its expiry, a failure for less than a minute. */
  ghost function EagerStore(h: seq<Event>, now: Time): Store
  {
    var ledger, openings := Ledger(h), Openings(h);
    Store(map c | c in ledger && now <= ledger[c] :: ledger[c],
          map id | id in openings && now <= openings[id].expiresAt :: openings[id],
          Recent(Failures(h), now))
  }

  ghost function SigningOn(attempts: map<nat, Attempt>, code: string): set<nat>
  {
    set a | a in attempts && attempts[a].phase == Signing(code)
  }

  function One(b: bool): nat
  {
    if b then 1 else 0
  }

  lemma CountSnoc(q: Query, h: seq<Event>, e: Event)
    ensures Count(q, h + [e]) == Count(q, h) + One(Answers(q, e))
  {
    assert (h + [e])[..|h|] == h;
  }

  /** One more event, seen by each reading of the history. */
  lemma HistorySnoc(h: seq<Event>, e: Event)
    ensures Ledger(h + [e]) == LedgerAfter(Ledger(h), e)
    ensures Openings(h + [e]) == OpeningsAfter(Openings(h), e)
    ensures Failures(h + [e]) == if e.Failed? then Failures(h) + [e.at] else Failures(h)
  {
    assert (h + [e])[..|h|] == h;
    assert Failures(h) + [] == Failures(h);
  }
}
