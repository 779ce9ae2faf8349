/** The Pairer object: maps and a failure array updated in place, one method per locked section. */
module PairerObject {
  import opened Terms
  import opened Messages
  import opened PairerModel
  import opened Decimal
  import Pki
  import Steps = PairerSteps
  import Safety = PairerSafety

  method ValidateCodeFormat(code: string) returns (ok: bool)
    ensures ok <==> exists n: nat :: n < CODE_SPACE && GenerateCode(n) == code
    ensures ok <==> |code| == 8 && forall i | 0 <= i < 8 :: '0' <= code[i] <= '9'
  {
    if |code| != CODE_DIGITS {
      NotGenerated(code);
      return false;
    }
    for i := 0 to |code|
      invariant AllDigits(code[..i])
    {
      if code[i] < '0' || code[i] > '9' {
        assert !IsDigit(code[i]);
        NotGenerated(code);
        return false;
      }
    }
    assert code[..|code|] == code;
    EveryCodeIsGenerated(code);
    return true;
  }

  lemma NotGenerated(code: string)
    requires !ValidCode(code)
    ensures !exists n: nat :: n < CODE_SPACE && GenerateCode(n) == code
  {
    forall n: nat | n < CODE_SPACE ensures GenerateCode(n) != code {
      CodesAreEightDigits(n);
    }
  }

  /** Walks the code map in some order and deletes what has expired. */
  method DropExpiredCodes(codes: map<string, Time>, now: Time) returns (live: map<string, Time>)
    ensures live == LiveCodes(codes, now)
  {
    live := codes;
    var rest := codes.Keys;
    while rest != {}
      invariant rest <= codes.Keys
      invariant live == map c | c in codes && (c in rest || codes[c] >= now) :: codes[c]
      decreases |rest|
    {
      var c :| c in rest;
      rest := rest - {c};
      if now > codes[c] {
        live := live - {c};
      }
    }
  }

  method DropExpiredSessions(sessions: map<Bytes, Session>, now: Time) returns (live: map<Bytes, Session>)
    ensures live == LiveSessions(sessions, now)
  {
    live := sessions;
    var rest := sessions.Keys;
    while rest != {}
      invariant rest <= sessions.Keys
      invariant live == map id | id in sessions && (id in rest || sessions[id].expiresAt >= now) :: sessions[id]
      decreases |rest|
    {
      var id :| id in rest;
      rest := rest - {id};
      if now > sessions[id].expiresAt {
        live := live - {id};
      }
    }
  }

  /** Lists a set in some order: one walk over the code map. */
  method ListCodes(codes: set<string>) returns (order: seq<string>)
    ensures Enumerates(order, codes)
  {
    order := [];
    var rest := codes;
    while rest != {}
      invariant rest <= codes
      invariant Enumerates(order, codes - rest)
      decreases |rest|
    {
      var c :| c in rest;
      order := order + [c];
      rest := rest - {c};
    }
  }

  /** The matching loop as the source writes it. */
  method FindMatch(order: seq<string>, session: Session, serverHash: Bytes, csr: Bytes, tag: Tag)
    returns (matched: string)
    ensures matched == MatchLoop(order, session, serverHash, csr, tag)
  {
    matched := "";
    var i := 0;
    while i < |order|
      invariant 0 <= i <= |order|
      invariant MatchLoop(order, session, serverHash, csr, tag) == MatchLoop(order[i..], session, serverHash, csr, tag)
    {
      if Opens(order[i], session, serverHash, csr, tag) {
        return order[i];
      }
      assert order[i..][1..] == order[i + 1..];
      i := i + 1;
    }
  }

  /** The candidate that opens the tag; there is at most one. */
  ghost function Opener(candidates: set<string>, session: Session, serverHash: Bytes, csr: Bytes, tag: Tag): string
  {
    if exists c :: c in candidates && Opens(c, session, serverHash, csr, tag)
    then var c :| c in candidates && Opens(c, session, serverHash, csr, tag); c
    else ""
  }

  lemma LoopFindsOpener(order: seq<string>, candidates: set<string>, session: Session, hash: Bytes, csr: Bytes,
                        tag: Tag)
    requires Enumerates(order, candidates) && forall c | c in candidates :: ValidCode(c)
    ensures MatchLoop(order, session, hash, csr, tag) == Opener(candidates, session, hash, csr, tag)
  {
    assert forall i | 0 <= i < |order| :: order[i] in order;
    MatchLoopFinds(order, session, hash, csr, tag);
    var m := Opener(candidates, session, hash, csr, tag);
    if m == "" {
      assert forall c | c in order :: c in candidates;
    } else {
      assert m in order;
    }
  }

  /** What a whole Complete does to the store when no other call comes between its halves. */
  ghost function CompleteOp(cfg: Config, s: Store, now: Time, id: Bytes, csr: Bytes, tag: Tag, finishedAt: Time,
                            serial: nat, signedAt: Time, pad: Pad): (Store, Result<Bundle, Error>)
  {
    var (t, admission) := AdmitOp(s, now, id);
    match admission
    case Refused(e) => (t, Err(e))
    case Admitted(session, candidates) =>
      var code := Opener(candidates, session, CertHash(cfg.serverCert), csr, tag);
      var (u, verdict) := FinishOp(t, finishedAt, code);
      if verdict.Rejected? then (u, Err(BadCode))
      else (u, CertifyOp(cfg, code, session, csr, serial, signedAt, pad))
  }

  /** Complete without interference is one path of the step system: admission, matching, finish and
      signing taken in a row by the same attempt. */
  lemma CompleteIsFourSteps(cfg: Config, s: Steps.State, a: nat, id: Bytes, csr: Bytes, tag: Tag, order: seq<string>,
                            finishedAt: Time, serial: nat, signedAt: Time, pad: Pad)
    requires a !in s.attempts && finishedAt >= s.now && forall c | c in s.store.codes :: ValidCode(c)
    requires Enumerates(order, LiveCodes(s.store.codes, s.now).Keys)
    ensures var (store, result) := CompleteOp(cfg, s.store, s.now, id, csr, tag, finishedAt, serial, signedAt, pad);
            var s1 := Steps.Apply(cfg, s, Steps.Admit(a, id, csr, tag));
            if a !in s1.attempts then
              s1.store == store && result.Err? && AdmitOp(s.store, s.now, id).1 == Refused(result.error)
            else
              && Steps.Enabled(s1, Steps.Match(a, order))
              && var s2 := Steps.Apply(cfg, s1, Steps.Match(a, order)).(now := finishedAt);
              && Steps.Enabled(s2, Steps.Finish(a))
              && var s3 := Steps.Apply(cfg, s2, Steps.Finish(a));
              && s3.store == store
              && (a !in s3.attempts ==> result == Err(BadCode))
              && (a in s3.attempts ==>
                  && Steps.Enabled(s3, Steps.Certify(a, serial, signedAt, pad))
                  && var s4 := Steps.Apply(cfg, s3, Steps.Certify(a, serial, signedAt, pad));
                  && s4.store == store && s4.attempts == s.attempts
                  && var e := s4.history[|s4.history| - 1];
                  if result.Ok? then e.Certified? && e.bundle == result.value else e.Withheld?)
  {
    var s1 := Steps.Apply(cfg, s, Steps.Admit(a, id, csr, tag));
    if a in s1.attempts {
      var at := s1.attempts[a];
      LoopFindsOpener(order, at.candidates, at.session, CertHash(cfg.serverCert), csr, tag);
    }
  }

  /** Somebody's code, in force, made this MAC for this open session. */
  ghost predicate Proven(eager: Store, cfg: Config, id: Bytes, csr: Bytes, tag: Tag, code: string)
    requires id in eager.sessions
  {
    code in eager.codes && Opens(code, eager.sessions[id], CertHash(cfg.serverCert), csr, tag)
  }

  lemma OpenerIsProven(eager: Store, cfg: Config, id: Bytes, csr: Bytes, tag: Tag)
    requires id in eager.sessions && forall c | c in eager.codes :: ValidCode(c)
    ensures var m := Opener(eager.codes.Keys, eager.sessions[id], CertHash(cfg.serverCert), csr, tag);
            && (m == "" <==> forall c :: !Proven(eager, cfg, id, csr, tag, c))
            && (m != "" ==> Proven(eager, cfg, id, csr, tag, m))
  {
    var m := Opener(eager.codes.Keys, eager.sessions[id], CertHash(cfg.serverCert), csr, tag);
    if exists c :: c in eager.codes.Keys && Opens(c, eager.sessions[id], CertHash(cfg.serverCert), csr, tag) {
      assert Proven(eager, cfg, id, csr, tag, m) && ValidCode(m);
    } else {
      forall c ensures !Proven(eager, cfg, id, csr, tag, c) {
        assert c in eager.codes ==> c in eager.codes.Keys;
      }
    }
  }

  /** What an admitted Complete answers and leaves behind. */
  lemma AdmittedAnswers(cfg: Config, eager: Store, id: Bytes, csr: Bytes, tag: Tag, finishedAt: Time,
                        serial: nat, signedAt: Time, pad: Pad, code: string)
    requires id in eager.sessions && forall c | c in eager.codes :: ValidCode(c)
    requires code == Opener(eager.codes.Keys, eager.sessions[id], CertHash(cfg.serverCert), csr, tag)
    ensures var left := eager.(sessions := eager.sessions - {id});
            FinishOp(left, finishedAt, code)
            == if code == "" then (left.(failures := left.failures + [finishedAt]), Rejected)
               else (left.(codes := left.codes - {code}), Spent)
  {
    OpenerIsProven(eager, cfg, id, csr, tag);
  }

  /** What Complete answers when nobody overlaps it, in every reachable state and in terms of what is
      in force: the refusals of admission, a bad code, or a spent code with a certificate exactly for
      a signable request. */
  lemma CompleteAnswers(cfg: Config, start: Time, steps: seq<Steps.Step>, s: Steps.State, id: Bytes, csr: Bytes,
                        tag: Tag, finishedAt: Time, serial: nat, signedAt: Time, pad: Pad)
    requires Steps.Exec(cfg, start, steps) == Some(s)
    ensures var eager := Steps.EagerStore(s.history, s.now);
            var (store, r) := CompleteOp(cfg, s.store, s.now, id, csr, tag, finishedAt, serial, signedAt, pad);
            var left := eager.(sessions := eager.sessions - {id});
            if id !in eager.sessions then r == Err(UnknownSession) && store == left
            else if |eager.failures| >= 5 then r == Err(TooManyAttempts) && store == left
            else if forall c :: !Proven(eager, cfg, id, csr, tag, c) then
              r == Err(BadCode) && store == left.(failures := left.failures + [finishedAt])
            else
              && (r.Ok? <==> CanSign(cfg) && Signable(csr))
              && (r.Err? ==> r.error.SigningFailed?)
              && exists c :: Proven(eager, cfg, id, csr, tag, c) && store == left.(codes := left.codes - {c})
  {
    Safety.LazyIsEager(cfg, start, steps, s);
    Safety.CodesInForceAreValid(cfg, start, steps, s);
    var eager := Steps.EagerStore(s.history, s.now);
    if id in eager.sessions && |eager.failures| < 5 {
      var session := eager.sessions[id];
      var code := Opener(eager.codes.Keys, session, CertHash(cfg.serverCert), csr, tag);
      OpenerIsProven(eager, cfg, id, csr, tag);
      AdmittedAnswers(cfg, eager, id, csr, tag, finishedAt, serial, signedAt, pad, code);
      CertifyExactly(cfg, code, session, csr, serial, signedAt, pad);
    }
  }

  class Pairer {
    const cfg: Config
    var codes: map<string, Time>
    var sessions: map<Bytes, Session>
    var failures: array<Time>  // the first `count` entries are in use
    var count: nat

    ghost predicate Valid()
      reads this
    {
      count <= failures.Length && forall c | c in codes :: ValidCode(c)
    }

    ghost function Contents(): Store
      requires Valid()
      reads this, failures
    {
      Store(codes, sessions, failures[..count])
    }

    constructor (ca: Pki.Authority, serverCert: Certificate, nodeTtl: Time)
      ensures Valid() && fresh(failures)
      ensures Contents() == Store(map[], map[], [])
      ensures cfg.ca == ca && cfg.serverCert == serverCert
      ensures cfg.nodeTtl == if nodeTtl > 0 then nodeTtl else 30 * 24 * 3_600_000_000_000
    {
      cfg := Config(ca, serverCert, if nodeTtl <= 0 then Pki.DEFAULT_NODE_CERT_TTL else nodeTtl);
      codes, sessions := map[], map[];
      failures, count := new Time[0], 0;
    }

    /** Compacts the failures in place: kept entries move left over dropped ones. */
    method CompactFailures(now: Time)
      requires Valid()
      modifies this`count, failures
      ensures Valid() && failures[..count] == Recent(old(failures[..count]), now)
    {
      var n := count;
      ghost var was := failures[..n];
      var kept := 0;
      for i := 0 to n
        invariant 0 <= kept <= i && count == n
        invariant failures[..kept] == Recent(was[..i], now)
        invariant forall k | i <= k < n :: failures[k] == was[k]
      {
        assert was[..i + 1][..i] == was[..i];
        if now - failures[i] < FAILURE_WINDOW {
          failures[kept] := failures[i];
          kept := kept + 1;
          assert failures[..kept] == failures[..kept - 1] + [was[i]];
        }
      }
      assert was[..n] == was;
      count := kept;
    }

    /** Drops expired codes, expired sessions and old failures. */
    method Gc(now: Time)
      requires Valid()
      modifies this, failures
      ensures Valid() && failures == old(failures)
      ensures Contents() == Collect(old(Contents()), now)
    {
      codes := DropExpiredCodes(codes, now);
      sessions := DropExpiredSessions(sessions, now);
      CompactFailures(now);
    }

    /** Appends, moving to a larger array when there is no room. */
    method AppendFailure(t: Time)
      requires Valid()
      modifies this`failures, this`count, failures
      ensures Valid() && (failures == old(failures) || fresh(failures))
      ensures failures[..count] == old(failures[..count]) + [t]
    {
      if count == failures.Length {
        var larger := new Time[2 * count + 1];
        forall i | 0 <= i < count {
          larger[i] := failures[i];
        }
        assert larger[..count] == failures[..count];
        failures := larger;
      }
      failures[count] := t;
      count := count + 1;
    }

    /** `n` is the random draw and `drawnAt` the clock reading before the lock is taken. */
    method Issue(n: nat, drawnAt: Time, ttl: Time, now: Time) returns (code: string, expiresAt: Time)
      requires Valid() && n < CODE_SPACE
      modifies this, failures
      ensures Valid() && failures == old(failures)
      ensures code == GenerateCode(n) && expiresAt == CodeExpiry(drawnAt, ttl)
      ensures expiresAt == drawnAt + if ttl > 0 then ttl else 60_000_000_000
      ensures Contents() == IssueOp(old(Contents()), now, code, expiresAt)
    {
      code, expiresAt := GenerateCode(n), CodeExpiry(drawnAt, ttl);
      CodesAreEightDigits(n);
      Gc(now);
      codes := codes[code := expiresAt];
    }

    method ActiveCodes(now: Time) returns (k: nat)
      requires Valid()
      modifies this, failures
      ensures Valid() && failures == old(failures)
      ensures Contents() == Collect(old(Contents()), now)
      ensures k == |LiveCodes(old(codes), now)|
    {
      Gc(now);
      k := |codes|;
    }

    /** `id` and `salt` are the random draws, `later` the second clock reading. */
    method Begin(now: Time, id: Bytes, salt: Bytes, later: Time) returns (r: Result<Session, Error>)
      requires Valid()
      modifies this, failures
      ensures Valid() && failures == old(failures)
      ensures (Contents(), r) == BeginOp(old(Contents()), now, id, salt, later)
    {
      Gc(now);
      if |codes| == 0 {
        return Err(NoActiveCode);
      }
      if count >= MAX_FAILURES {
        return Err(TooManyAttempts);
      }
      if |sessions| >= MAX_SESSIONS {
        return Err(Busy);
      }
      var session := Session(id, salt, later + DEFAULT_SESSION_TTL);
      sessions := sessions[id := session];
      r := Ok(session);
    }

    /** Complete up to the unlock. */
    method Admit(now: Time, id: Bytes) returns (r: Admission)
      requires Valid()
      modifies this, failures
      ensures Valid() && failures == old(failures)
      ensures (Contents(), r) == AdmitOp(old(Contents()), now, id)
    {
      Gc(now);
      var open := sessions;
      sessions := sessions - {id};
      if id !in open {
        return Refused(UnknownSession);
      }
      if count >= MAX_FAILURES {
        return Refused(TooManyAttempts);
      }
      r := Admitted(open[id], codes.Keys);
    }

    /** Complete from the second lock on. */
    method Finish(now: Time, matched: string) returns (v: Verdict)
      requires Valid()
      modifies this, failures
      ensures Valid() && (failures == old(failures) || fresh(failures))
      ensures (Contents(), v) == FinishOp(old(Contents()), now, matched)
    {
      if matched == "" {
        AppendFailure(now);
        return Rejected;
      }
      if matched !in codes {
        return Rejected;
      }
      codes := codes - {matched};
      v := Spent;
    }

    /** A Complete that no other call overlaps. */
    method Complete(now: Time, id: Bytes, csr: Bytes, tag: Tag, finishedAt: Time, serial: nat, signedAt: Time, pad: Pad)
      returns (r: Result<Bundle, Error>)
      requires Valid()
      modifies this, failures
      ensures Valid() && (failures == old(failures) || fresh(failures))
      ensures (Contents(), r) == CompleteOp(cfg, old(Contents()), now, id, csr, tag, finishedAt, serial, signedAt, pad)
    {
      var admission := Admit(now, id);
      if admission.Refused? {
        return Err(admission.error);
      }
      var session := admission.session;
      var order := ListCodes(admission.candidates);
      var matched := FindMatch(order, session, CertHash(cfg.serverCert), csr, tag);
      LoopFindsOpener(order, admission.candidates, session, CertHash(cfg.serverCert), csr, tag);
      var verdict := Finish(finishedAt, matched);
      if verdict.Rejected? {
        return Err(BadCode);
      }
      r := CertifyOp(cfg, matched, session, csr, serial, signedAt, pad);
    }
  }
}
