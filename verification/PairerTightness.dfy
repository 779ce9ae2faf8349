/** The window bound cannot be improved: runs exist that reach it. */
module PairerTightness {
  import opened Terms
  import opened Messages
  import opened PairerModel
  import opened PairerSteps
  import opened PairerSafety

  function Blank(): Bytes
  {
    seq(SESSION_ID_LEN, _ => Lit(0))
  }

  function TheCode(): string
  {
    GenerateCode(0)
  }

  function Same(t: Time, k: nat): seq<Time>
  {
    seq(k, _ => t)
  }

  ghost predicate Doomed(a: Attempt)
  {
    a.phase == Waiting && a.tag == Junk([]) && a.candidates == {TheCode()}
  }

  /** Attempts 0 to p - 1, all waiting to fail. */
  ghost predicate Crowd(attempts: map<nat, Attempt>, p: nat)
  {
    && (forall i :: i in attempts <==> 0 <= i < p)
    && (forall i | 0 <= i < p :: Doomed(attempts[i]))
  }

  /** At one instant: one live code, no open session, `k` failures and `p` attempts that will fail. */
  ghost predicate Shape(s: State, start: Time, k: nat, p: nat)
  {
    && s.now == start
    && s.store == Store(map[TheCode() := start + HOUR], map[], Same(start, k))
    && Failures(s.history) == Same(start, k)
    && Crowd(s.attempts, p)
  }

  lemma CollectKeeps(start: Time, k: nat, sessions: map<Bytes, Session>)
    requires forall id | id in sessions :: sessions[id].expiresAt >= start
    ensures var store := Store(map[TheCode() := start + HOUR], sessions, Same(start, k));
            Collect(store, start) == store
  {
    AllRecentKept(Same(start, k), start);
    assert LiveCodes(map[TheCode() := start + HOUR], start) == map[TheCode() := start + HOUR];
    assert LiveSessions(sessions, start) == sessions;
  }

  lemma IssueFirst(cfg: Config, start: Time) returns (steps: seq<Step>)
    ensures Exec(cfg, start, steps).Some? && Shape(Exec(cfg, start, steps).value, start, 0, 0)
    ensures Exec(cfg, start, steps).value.peak == 0
  {
    var step := Issue(0, start, HOUR);
    steps := [step];
    var s := Initial(start);
    assert Exec(cfg, start, []) == Some(s) && [] + [step] == steps;
    ExecSnoc(cfg, start, [], step);
    HistorySnoc(s.history, Issued(TheCode(), start + HOUR));
    var t := Apply(cfg, s, step);
    assert t.store.codes == map[TheCode() := start + HOUR];
    assert t.store.sessions == map[];
  }

  /** Opening and at once claiming the session adds one attempt while fewer than five failures stand. */
  lemma BeginOpens(cfg: Config, s: State, start: Time, k: nat, p: nat)
    requires Shape(s, start, k, p) && k < MAX_FAILURES
    ensures var step := Begin(Blank(), Blank(), start);
            && Enabled(s, step)
            && var t := Apply(cfg, s, step);
            var session := Session(Blank(), Blank(), start + DEFAULT_SESSION_TTL);
            && t.store == s.store.(sessions := map[Blank() := session])
            && t == s.(store := t.store, history := s.history + [Begun(session)],
                      sweptAt := start, sweptLen := |s.history|)
  {
    CollectKeeps(start, k, map[]);
    assert |map[TheCode() := start + HOUR]| == 1;
  }

  lemma AdmitAdds(cfg: Config, s: State, start: Time, k: nat, p: nat, session: Session, h: seq<Event>)
    requires Shape(s, start, k, p) && k < MAX_FAILURES && session.expiresAt >= start
    ensures var u := s.(store := s.store.(sessions := map[Blank() := session]), history := h,
                        sweptAt := start, sweptLen := |s.history|);
            var step := Admit(p, Blank(), [], Junk([]));
            && Enabled(u, step)
            && var t := Apply(cfg, u, step);
            && t.store == s.store && t.history == h + [Claimed(Blank(), start, true)] && t.now == start
            && p in t.attempts && t.attempts == s.attempts[p := t.attempts[p]] && Doomed(t.attempts[p])
            && t.peak == Max(s.peak, |Pending(t.attempts)|)
  {
    CollectKeeps(start, k, map[Blank() := session]);
    assert map[Blank() := session] - {Blank()} == map[];
    assert map[TheCode() := start + HOUR].Keys == {TheCode()};
  }

  lemma CrowdShrinks(attempts: map<nat, Attempt>, p: nat)
    requires p > 0 && Crowd(attempts, p)
    ensures Crowd(attempts - {p - 1}, p - 1)
    ensures Pending(attempts) == Pending(attempts - {p - 1}) + {p - 1}
  {
    assert Doomed(attempts[p - 1]);
  }

  lemma {:induction false} AllPending(attempts: map<nat, Attempt>, p: nat)
    requires Crowd(attempts, p)
    ensures |Pending(attempts)| == p
  {
    if p == 0 {
      assert Pending(attempts) == {};
    } else {
      CrowdShrinks(attempts, p);
      AllPending(attempts - {p - 1}, p - 1);
    }
  }

  lemma CrowdGrows(attempts: map<nat, Attempt>, p: nat, a: Attempt)
    requires Crowd(attempts, p) && Doomed(a)
    ensures Crowd(attempts[p := a], p + 1) && |Pending(attempts[p := a])| == p + 1
  {
    AllPending(attempts[p := a], p + 1);
  }

  lemma TwoQuietEvents(h: seq<Event>, e: Event, e': Event)
    requires !e.Failed? && !e'.Failed?
    ensures Failures(h + [e] + [e']) == Failures(h)
  {
    QuietEvent(h, e);
    QuietEvent(h + [e], e');
  }

  lemma OpenShape(cfg: Config, s: State, start: Time, k: nat, p: nat) returns (u: State, t: State)
    requires Shape(s, start, k, p) && k < MAX_FAILURES
    ensures Enabled(s, Begin(Blank(), Blank(), start)) && u == Apply(cfg, s, Begin(Blank(), Blank(), start))
    ensures Enabled(u, Admit(p, Blank(), [], Junk([]))) && t == Apply(cfg, u, Admit(p, Blank(), [], Junk([])))
    ensures t.store == s.store && t.now == start && Failures(t.history) == Failures(s.history)
    ensures p in t.attempts && t.attempts == s.attempts[p := t.attempts[p]] && Doomed(t.attempts[p])
    ensures t.peak == Max(s.peak, |Pending(t.attempts)|)
  {
    var session := Session(Blank(), Blank(), start + DEFAULT_SESSION_TTL);
    BeginOpens(cfg, s, start, k, p);
    u := Apply(cfg, s, Begin(Blank(), Blank(), start));
    AdmitAdds(cfg, s, start, k, p, session, u.history);
    TwoQuietEvents(s.history, Begun(session), Claimed(Blank(), start, true));
    t := Apply(cfg, u, Admit(p, Blank(), [], Junk([])));
  }

  lemma OpenOne(cfg: Config, start: Time, steps: seq<Step>, k: nat, p: nat) returns (more: seq<Step>)
    requires Exec(cfg, start, steps).Some? && Shape(Exec(cfg, start, steps).value, start, k, p) && k < MAX_FAILURES
    ensures Exec(cfg, start, more).Some? && Shape(Exec(cfg, start, more).value, start, k, p + 1)
    ensures Exec(cfg, start, more).value.peak == Max(Exec(cfg, start, steps).value.peak, p + 1)
  {
    var s := Exec(cfg, start, steps).value;
    var b, a := Begin(Blank(), Blank(), start), Admit(p, Blank(), [], Junk([]));
    var u, t := OpenShape(cfg, s, start, k, p);
    ExecSnoc(cfg, start, steps, b);
    ExecSnoc(cfg, start, steps + [b], a);
    CrowdGrows(s.attempts, p, t.attempts[p]);
    more := steps + [b] + [a];
  }

  /** A junk tag matches nothing, so the attempt ends as a failure. */
  lemma JunkMatchesNothing(a: Attempt, cfg: Config)
    requires Doomed(a)
    ensures MatchLoop([TheCode()], a.session, CertHash(cfg.serverCert), a.csr, a.tag) == ""
  {
    assert [TheCode()][1..] == [];
  }

  lemma FailShape(cfg: Config, s: State, a: nat) returns (u: State, t: State)
    requires a in s.attempts && Doomed(s.attempts[a])
    ensures Enabled(s, Match(a, [TheCode()])) && u == Apply(cfg, s, Match(a, [TheCode()]))
    ensures Enabled(u, Finish(a)) && t == Apply(cfg, u, Finish(a))
    ensures t.store == s.store.(failures := s.store.failures + [s.now]) && t.now == s.now && t.peak == s.peak
    ensures Failures(t.history) == Failures(s.history) + [s.now] && t.attempts == s.attempts - {a}
  {
    JunkMatchesNothing(s.attempts[a], cfg);
    u := Apply(cfg, s, Match(a, [TheCode()]));
    t := Apply(cfg, u, Finish(a));
    HistorySnoc(s.history, Failed(s.now, u.attempts[a]));
  }

  lemma FailOne(cfg: Config, start: Time, steps: seq<Step>, k: nat, p: nat) returns (more: seq<Step>)
    requires p > 0 && Exec(cfg, start, steps).Some? && Shape(Exec(cfg, start, steps).value, start, k, p)
    ensures Exec(cfg, start, more).Some? && Shape(Exec(cfg, start, more).value, start, k + 1, p - 1)
    ensures Exec(cfg, start, more).value.peak == Exec(cfg, start, steps).value.peak
  {
    var s := Exec(cfg, start, steps).value;
    var m, f := Match(p - 1, [TheCode()]), Finish(p - 1);
    var u, t := FailShape(cfg, s, p - 1);
    ExecSnoc(cfg, start, steps, m);
    ExecSnoc(cfg, start, steps + [m], f);
    CrowdShrinks(s.attempts, p);
    assert Same(start, k) + [start] == Same(start, k + 1);
    more := steps + [m] + [f];
  }

  lemma {:induction false} OpenMany(cfg: Config, start: Time, steps: seq<Step>, k: nat, p: nat, n: nat)
    returns (more: seq<Step>)
    requires Exec(cfg, start, steps).Some? && Shape(Exec(cfg, start, steps).value, start, k, p) && k < MAX_FAILURES
    ensures Exec(cfg, start, more).Some? && Shape(Exec(cfg, start, more).value, start, k, p + n)
    ensures Exec(cfg, start, more).value.peak == Max(Exec(cfg, start, steps).value.peak, if n == 0 then 0 else p + n)
  {
    more := steps;
    if n > 0 {
      more := OpenMany(cfg, start, steps, k, p, n - 1);
      more := OpenOne(cfg, start, more, k, p + n - 1);
    }
  }

  lemma {:induction false} FailMany(cfg: Config, start: Time, steps: seq<Step>, k: nat, p: nat)
    returns (more: seq<Step>)
    requires Exec(cfg, start, steps).Some? && Shape(Exec(cfg, start, steps).value, start, k, p)
    ensures Exec(cfg, start, more).Some? && Shape(Exec(cfg, start, more).value, start, k + p, 0)
    ensures Exec(cfg, start, more).value.peak == Exec(cfg, start, steps).value.peak
    decreases p
  {
    more := steps;
    if p > 0 {
      more := FailOne(cfg, start, steps, k, p);
      more := FailMany(cfg, start, more, k + 1, p - 1);
    }
  }

  /** Failures one after another, without overlap. */
  lemma {:induction false} FailInTurn(cfg: Config, start: Time, n: nat) returns (steps: seq<Step>)
    requires n < MAX_FAILURES
    ensures Exec(cfg, start, steps).Some? && Shape(Exec(cfg, start, steps).value, start, n, 0)
    ensures Exec(cfg, start, steps).value.peak <= 1
  {
    if n == 0 {
      steps := IssueFirst(cfg, start);
    } else {
      steps := FailInTurn(cfg, start, n - 1);
      steps := OpenOne(cfg, start, steps, n - 1, 0);
      steps := FailOne(cfg, start, steps, n - 1, 1);
    }
  }

  lemma {:induction false} PendingBelowPeak(cfg: Config, start: Time, steps: seq<Step>, k: nat)
    requires Exec(cfg, start, steps).Some? && k <= |steps| && Exec(cfg, start, steps[..k]).Some?
    ensures |Pending(Exec(cfg, start, steps[..k]).value.attempts)| <= Exec(cfg, start, steps).value.peak
    decreases |steps|
  {
    if k == |steps| {
      assert steps[..k] == steps;
      InvAlways(cfg, start, steps);
    } else {
      var n := |steps| - 1;
      assert steps[..n][..k] == steps[..k];
      PendingBelowPeak(cfg, start, steps[..n], k);
      PeakGrows(cfg, Exec(cfg, start, steps[..n]).value, steps[n]);
    }
  }

  lemma PeakGrows(cfg: Config, s: State, step: Step)
    requires Enabled(s, step)
    ensures s.peak <= Apply(cfg, s, step).peak
  {
  }

  /** For every bound there is a run that keeps to it and records 4 + bound failures at one single
      instant. Together with FailuresAreSpaced this settles what the rate limit promises. */
  lemma BoundIsReached(cfg: Config, start: Time, bound: nat)
    requires bound > 0
    ensures exists steps :: Exec(cfg, start, steps).Some? && NeverMorePending(cfg, start, steps, bound)
              && Failures(Exec(cfg, start, steps).value.history) == Same(start, MAX_FAILURES - 1 + bound)
  {
    var steps := FailInTurn(cfg, start, MAX_FAILURES - 1);
    steps := OpenMany(cfg, start, steps, MAX_FAILURES - 1, 0, bound);
    steps := FailMany(cfg, start, steps, MAX_FAILURES - 1, bound);
    forall k | 0 <= k <= |steps| && Exec(cfg, start, steps[..k]).Some?
      ensures |Pending(Exec(cfg, start, steps[..k]).value.attempts)| <= bound
    {
      PendingBelowPeak(cfg, start, steps, k);
    }
    assert NeverMorePending(cfg, start, steps, bound);
  }

  ghost predicate SpansMinute(failures: seq<Time>, limit: nat)
  {
    forall i | 0 <= i && i + limit < |failures| :: failures[i + limit] - failures[i] >= FAILURE_WINDOW
  }

  /** No run with at most `bound` overlapping attempts has more than `limit` failures in a minute. */
  ghost predicate Limited(cfg: Config, bound: nat, limit: nat)
  {
    forall start, steps | Exec(cfg, start, steps).Some? && NeverMorePending(cfg, start, steps, bound) ::
      SpansMinute(Failures(Exec(cfg, start, steps).value.history), limit)
  }

  lemma LimitHolds(cfg: Config, start: Time, steps: seq<Step>, bound: nat, limit: nat)
    requires Exec(cfg, start, steps).Some? && NeverMorePending(cfg, start, steps, bound)
    requires limit >= MAX_FAILURES - 1 + bound
    ensures SpansMinute(Failures(Exec(cfg, start, steps).value.history), limit)
  {
    var s := Exec(cfg, start, steps).value;
    var failures := Failures(s.history);
    InvAlways(cfg, start, steps);
    forall i | 0 <= i && i + limit < |failures| ensures failures[i + limit] - failures[i] >= FAILURE_WINDOW {
      FailuresAreSpaced(cfg, start, steps, s, bound, i);
      assert failures[i + (MAX_FAILURES - 1 + bound)] <= failures[i + limit];
    }
  }

  /** The exact limit: with at most `bound` overlapping attempts a minute never sees more than `limit`
      failures if and only if `limit` is at least 4 + `bound`. The documented five hold exactly when
      attempts do not overlap. */
  lemma LimitExactly(cfg: Config, bound: nat, limit: nat)
    requires bound > 0
    ensures Limited(cfg, bound, limit) <==> limit >= MAX_FAILURES - 1 + bound
    ensures Limited(cfg, bound, MAX_FAILURES) <==> bound == 1
  {
    LimitIff(cfg, bound, limit);
    LimitIff(cfg, bound, MAX_FAILURES);
  }

  lemma LimitIff(cfg: Config, bound: nat, limit: nat)
    requires bound > 0
    ensures Limited(cfg, bound, limit) <==> limit >= MAX_FAILURES - 1 + bound
  {
    if limit >= MAX_FAILURES - 1 + bound {
      forall start, steps | Exec(cfg, start, steps).Some? && NeverMorePending(cfg, start, steps, bound)
        ensures SpansMinute(Failures(Exec(cfg, start, steps).value.history), limit)
      {
        LimitHolds(cfg, start, steps, bound, limit);
      }
    } else {
      BoundIsReached(cfg, 0, bound);
      var steps :| Exec(cfg, 0, steps).Some? && NeverMorePending(cfg, 0, steps, bound)
        && Failures(Exec(cfg, 0, steps).value.history) == Same(0, MAX_FAILURES - 1 + bound);
      var failures := Failures(Exec(cfg, 0, steps).value.history);
      assert failures[0 + limit] - failures[0] == 0;
    }
  }
}
