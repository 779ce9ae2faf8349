/** The coordinator's pairing state: what each locked section does to it. */
module PairerModel {
  import opened Terms
  import opened Messages
  import opened Decimal
  import Der
  import Pki
  import Labels

  const CODE_DIGITS := 8
  const CODE_SPACE := 100_000_000
  const DEFAULT_CODE_TTL: Time := 60 * SECOND
  const DEFAULT_SESSION_TTL: Time := 60 * SECOND
  const MAX_SESSIONS := 32
  const MAX_FAILURES := 5
  const FAILURE_WINDOW: Time := MINUTE

  datatype Error =
    | BadCode | NoActiveCode | UnknownSession | TooManyAttempts | Busy
    | SigningFailed(cause: Pki.Error)

  // Codes.

  predicate ValidCode(code: string)
  {
    |code| == CODE_DIGITS && AllDigits(code)
  }

  function GenerateCode(n: nat): string
    requires n < CODE_SPACE
  {
    ZeroPadded(n, CODE_DIGITS)
  }

  /** Drawing a number below 10^8 and printing it reaches every well-formed code, each one once. */
  lemma CodesAreEightDigits(n: nat)
    requires n < CODE_SPACE
    ensures ValidCode(GenerateCode(n)) && NatValue(GenerateCode(n)) == n
  {
    assert Pow10(8) == CODE_SPACE;
    NaturalLength(n, 8);
    NaturalValue(n);
    var k := CODE_DIGITS - |Natural(n)|;
    ZerosAddNothing(k, Natural(n));
    assert Zeros(0) + Natural(n) == Natural(n);
  }

  lemma EveryCodeIsGenerated(code: string)
    requires ValidCode(code)
    ensures NatValue(code) < CODE_SPACE && GenerateCode(NatValue(code)) == code
  {
    ValueBound(code);
    assert Pow10(8) == CODE_SPACE;
    CodesAreEightDigits(NatValue(code));
    SameValueSameDigits(GenerateCode(NatValue(code)), code);
  }

  // The store.

  datatype Session = Session(id: Bytes, salt: Bytes, expiresAt: Time)

  datatype Store = Store(codes: map<string, Time>, sessions: map<Bytes, Session>, failures: seq<Time>)

  function LiveCodes(codes: map<string, Time>, now: Time): map<string, Time>
  {
    map c | c in codes && codes[c] >= now :: codes[c]
  }

  function LiveSessions(sessions: map<Bytes, Session>, now: Time): map<Bytes, Session>
  {
    map id | id in sessions && sessions[id].expiresAt >= now :: sessions[id]
  }

  /** The failures younger than the window, in order. */
  function Recent(failures: seq<Time>, now: Time): seq<Time>
  {
    if failures == [] then []
    else
      var n := |failures| - 1;
      Recent(failures[..n], now) + if now - failures[n] < FAILURE_WINDOW then [failures[n]] else []
  }

  function Collect(s: Store, now: Time): Store
  {
    Store(LiveCodes(s.codes, now), LiveSessions(s.sessions, now), Recent(s.failures, now))
  }

  function CodeExpiry(drawnAt: Time, ttl: Time): Time
  {
    drawnAt + if ttl <= 0 then DEFAULT_CODE_TTL else ttl
  }

  function IssueOp(s: Store, now: Time, code: string, expiresAt: Time): Store
  {
    var t := Collect(s, now);
    t.(codes := t.codes[code := expiresAt])
  }

  /** `later` is the second clock reading, the one that dates the session. */
  function BeginOp(s: Store, now: Time, id: Bytes, salt: Bytes, later: Time): (Store, Result<Session, Error>)
  {
    var t := Collect(s, now);
    if |t.codes| == 0 then (t, Err(NoActiveCode))
    else if |t.failures| >= MAX_FAILURES then (t, Err(TooManyAttempts))
    else if |t.sessions| >= MAX_SESSIONS then (t, Err(Busy))
    else
      var session := Session(id, salt, later + DEFAULT_SESSION_TTL);
      (t.(sessions := t.sessions[id := session]), Ok(session))
  }

  datatype Admission = Refused(error: Error) | Admitted(session: Session, candidates: set<string>)

  /** The first locked half of Complete. */
  function AdmitOp(s: Store, now: Time, id: Bytes): (Store, Admission)
  {
    var t := Collect(s, now);
    var rest := t.(sessions := t.sessions - {id});
    if id !in t.sessions then (rest, Refused(UnknownSession))
    else if |t.failures| >= MAX_FAILURES then (rest, Refused(TooManyAttempts))
    else (rest, Admitted(t.sessions[id], t.codes.Keys))
  }

  /** The client MAC was made with this code, for this session, server and request. */
  predicate Opens(code: string, session: Session, serverHash: Bytes, csr: Bytes, tag: Tag)
  {
    ClientMac(DeriveKey(code, session.salt), session.id, serverHash, csr) == tag
  }

  /** The unlocked loop: the first candidate that opens the tag, or the empty string. */
  function MatchLoop(order: seq<string>, session: Session, serverHash: Bytes, csr: Bytes, tag: Tag): string
  {
    if order == [] then ""
    else if Opens(order[0], session, serverHash, csr, tag) then order[0]
    else MatchLoop(order[1..], session, serverHash, csr, tag)
  }

  datatype Verdict = Rejected | Spent

  /** The second locked half of Complete. It collects nothing. */
  function FinishOp(s: Store, now: Time, matched: string): (Store, Verdict)
  {
    if matched == "" then (s.(failures := s.failures + [now]), Rejected)
    else if matched !in s.codes then (s, Rejected)
    else (s.(codes := s.codes - {matched}), Spent)
  }

  /** The coordinator's fixed parts. */
  datatype Config = Config(ca: Pki.Authority, serverCert: Certificate, nodeTtl: Time)

  datatype Bundle = Bundle(caCert: Certificate, nodeCert: Certificate, meshId: string, serverMac: Tag)

  /** What Complete does once the code is spent: the name comes from the request itself. */
  function CertifyOp(cfg: Config, code: string, session: Session, csr: Bytes, serial: nat, now: Time, pad: Pad)
    : Result<Bundle, Error>
  {
    match Der.ParseRequest(csr)
    case None => Err(SigningFailed(Pki.BadCsr))
    case Some(req) =>
      var mesh := Pki.MeshOf(cfg.ca.cert);
      var principal := Pki.Principal(mesh, Pki.ROLE_NODE, req.commonName);
      match Pki.SignCsr(cfg.ca, csr, principal, cfg.nodeTtl, serial, now, pad)
      case Err(e) => Err(SigningFailed(e))
      case Ok(node) =>
        var key := DeriveKey(code, session.salt);
        Ok(Bundle(cfg.ca.cert, node, mesh, ServerMac(key, session.id, Der.Raw(cfg.ca.cert), Der.Raw(node))))
  }

  /** A request that a mesh authority signs: well formed, signed by its own P-256 key, and with a
      label for a subject. */
  predicate Signable(csr: Bytes)
  {
    && Der.ParseRequest(csr).Some?
    && var req := Der.ParseRequest(csr).value;
    req.signedBy == req.publicKey && req.publicKey.P256? && Labels.ValidLabel(req.commonName)
  }

  /** The authority holds the key of its certificate and gives certificates a lifetime, as NewCA,
      LoadCA and NewPairer see to. */
  predicate CanSign(cfg: Config)
  {
    cfg.nodeTtl > 0 && cfg.ca.cert.tbs.publicKey == P256(cfg.ca.key)
  }

  /** After the code is spent, a certificate comes out exactly for signable requests. */
  lemma CertifyExactly(cfg: Config, code: string, session: Session, csr: Bytes, serial: nat, now: Time, pad: Pad)
    ensures CertifyOp(cfg, code, session, csr, serial, now, pad).Ok? <==> CanSign(cfg) && Signable(csr)
  {
  }

  /** Why a spent code buys nothing: a request that does not parse, is not signed by its own key or
      has another kind of key, and then a subject that is no label. */
  lemma CertifyRefuses(cfg: Config, code: string, session: Session, csr: Bytes, serial: nat, now: Time, pad: Pad)
    requires CanSign(cfg)
    ensures var r, parsed := CertifyOp(cfg, code, session, csr, serial, now, pad), Der.ParseRequest(csr);
            var sane := parsed.Some? && parsed.value.signedBy == parsed.value.publicKey && parsed.value.publicKey.P256?;
            && (r == Err(SigningFailed(Pki.BadCsr)) <==> !sane)
            && (r == Err(SigningFailed(Pki.InvalidNodeId)) <==> sane && !Labels.ValidLabel(parsed.value.commonName))
            && (r.Err? ==> r.error.SigningFailed? && (r.error.cause.BadCsr? || r.error.cause.InvalidNodeId?))
  {
  }

  /** Whose certificate it is: a node of this mesh under the subject of the request, with its key. */
  lemma CertifyNamesSubject(cfg: Config, code: string, session: Session, csr: Bytes, serial: nat, now: Time, pad: Pad)
    requires CertifyOp(cfg, code, session, csr, serial, now, pad).Ok? && Labels.ValidLabel(Pki.MeshOf(cfg.ca.cert))
    ensures var node := CertifyOp(cfg, code, session, csr, serial, now, pad).value.nodeCert;
            var req := Der.ParseRequest(csr).value;
            && Pki.PrincipalFromCert(node) == Ok(Pki.Principal(Pki.MeshOf(cfg.ca.cert), Pki.ROLE_NODE, req.commonName))
            && node.tbs.publicKey == req.publicKey && !node.tbs.isCA
  {
    var req := Der.ParseRequest(csr).value;
    Pki.UriTextRoundTrip(Pki.Principal(Pki.MeshOf(cfg.ca.cert), Pki.ROLE_NODE, req.commonName));
  }

  // Iteration order.

  /** At most one code opens a given tag. */
  lemma OpenerIsUnique(c: string, c': string, session: Session, hash: Bytes, csr: Bytes, tag: Tag)
    requires Opens(c, session, hash, csr, tag) && Opens(c', session, hash, csr, tag)
    ensures c == c'
  {
  }

  /** The loop returns the one candidate that opens the tag, and the sentinel exactly when there is
      none; the sentinel is never mistaken for a code because codes have eight digits. */
  lemma {:induction false} MatchLoopFinds(order: seq<string>, session: Session, hash: Bytes, csr: Bytes, tag: Tag)
    requires forall i | 0 <= i < |order| :: ValidCode(order[i])
    ensures var m := MatchLoop(order, session, hash, csr, tag);
            && (m == "" <==> forall c | c in order :: !Opens(c, session, hash, csr, tag))
            && (m != "" ==> m in order && Opens(m, session, hash, csr, tag))
            && (forall c | c in order && Opens(c, session, hash, csr, tag) :: m == c)
  {
    if order != [] {
      MatchLoopFinds(order[1..], session, hash, csr, tag);
      assert order[0] != "";
      forall c | c in order && Opens(c, session, hash, csr, tag)
        ensures MatchLoop(order, session, hash, csr, tag) == c
      {
        if c == order[0] {
        } else {
          assert c in order[1..];
          if Opens(order[0], session, hash, csr, tag) {
            OpenerIsUnique(c, order[0], session, hash, csr, tag);
          }
        }
      }
    }
  }

  /** Complete gives the same match whatever order the code map is walked in. */
  lemma MatchIgnoresOrder(order: seq<string>, order': seq<string>, candidates: set<string>,
                          session: Session, hash: Bytes, csr: Bytes, tag: Tag)
    requires Enumerates(order, candidates) && Enumerates(order', candidates)
    requires forall c | c in candidates :: ValidCode(c)
    ensures MatchLoop(order, session, hash, csr, tag) == MatchLoop(order', session, hash, csr, tag)
  {
    assert forall i | 0 <= i < |order| :: order[i] in order;
    assert forall i | 0 <= i < |order'| :: order'[i] in order';
    MatchLoopFinds(order, session, hash, csr, tag);
    MatchLoopFinds(order', session, hash, csr, tag);
    var m := MatchLoop(order, session, hash, csr, tag);
    if m == "" {
      assert forall c | c in order' :: c in candidates && c in order;
    } else {
      assert m in candidates && m in order';
    }
  }

  // Collection.

  lemma {:induction false} RecentTwice(failures: seq<Time>, earlier: Time, now: Time)
    requires earlier <= now
    ensures Recent(Recent(failures, earlier), now) == Recent(failures, now)
  {
    if failures != [] {
      var n := |failures| - 1;
      var kept := Recent(failures[..n], earlier);
      RecentTwice(failures[..n], earlier, now);
      assert (kept + [failures[n]])[..|kept|] == kept;
      assert kept + [] == kept;
    }
  }

  /** What is kept: each instant younger than the window as often as it was recorded, and no other. */
  lemma {:induction false} RecentMeans(failures: seq<Time>, now: Time, t: Time)
    ensures multiset(Recent(failures, now))[t] == if now - t < MINUTE then multiset(failures)[t] else 0
  {
    if failures != [] {
      var n := |failures| - 1;
      var front, last := failures[..n], failures[n];
      RecentMeans(front, now, t);
      assert failures == front + [last];
      if now - last < FAILURE_WINDOW {
        assert Recent(failures, now) == Recent(front, now) + [last];
      } else {
        assert Recent(failures, now) == Recent(front, now);
      }
    }
  }

  lemma RecentSnoc(failures: seq<Time>, t: Time, now: Time)
    ensures Recent(failures + [t], now) == Recent(failures, now) + if now - t < FAILURE_WINDOW then [t] else []
  {
    assert (failures + [t])[..|failures|] == failures;
  }

  lemma {:induction false} RecentShrinks(failures: seq<Time>, earlier: Time, now: Time)
    requires earlier <= now
    ensures |Recent(failures, now)| <= |Recent(failures, earlier)|
  {
    if failures != [] {
      RecentShrinks(failures[..|failures| - 1], earlier, now);
    }
  }

  ghost predicate Sorted(ts: seq<Time>)
  {
    forall i, j | 0 <= i <= j < |ts| :: ts[i] <= ts[j]
  }

  /** In a sorted list the recent failures are a tail: one recent failure makes all later ones count. */
  lemma {:induction false} RecentIsTail(failures: seq<Time>, i: nat, now: Time)
    requires Sorted(failures) && i < |failures| && now - failures[i] < FAILURE_WINDOW
    ensures |Recent(failures, now)| >= |failures| - i
  {
    var n := |failures| - 1;
    if i < n {
      RecentIsTail(failures[..n], i, now);
    }
  }

  lemma {:induction false} AllRecentKept(failures: seq<Time>, now: Time)
    requires forall i | 0 <= i < |failures| :: now - failures[i] < FAILURE_WINDOW
    ensures Recent(failures, now) == failures
  {
    if failures != [] {
      var n := |failures| - 1;
      AllRecentKept(failures[..n], now);
      assert failures == failures[..n] + [failures[n]];
    }
  }
}
