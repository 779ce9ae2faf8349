# Verified model of the compute-mesh pairing protocol and peer discovery

A Dafny model of the parts of compute-mesh that decide who gets into a mesh and
what a node believes about its peers, with proofs about every run.

- **Pairing.** The coordinator's `Pairer` as a concurrent step system
  (`PairerSteps`): every locked section is one step, and an attempt to complete a
  pairing waits between its two locked halves while others run. `PairerSafety`
  proves what all interleavings keep, `PairerOutcomes` what a spent code buys and
  for whom, `PairerLosses` why a matching attempt can be turned away,
  `PairerTightness` the exact rate limit, and `PairerObject.Pairer` is
  the object itself, with maps and a failure array compacted in place, each method
  proved equal to the operation the step system uses.
- **Both ends.** `Joining` is the joiner. `Agreement` puts joiners, the
  coordinator and a hostile network together and proves injective agreement;
  `HonestSteps` proves exactly when an honest joiner gets a working identity,
  with any steps of others between its own, and `HonestRun` exhibits such runs in
  that same world. `Pki` is the certificate authority and peer verification.
- **Discovery.** `PeerTable` is the timed peer table with its bounded event
  channel, `PeerTableSafety` the theorems about its event stream, and
  `MdnsObject.Mdns` the object.
- **Text and octets.** `Txt`, `Hosts`, `Labels`, `Decimal`, `Strings`, `Der` and
  `Messages` are the codecs and identifiers the above rests on.

## How things are modelled

- Cryptography is symbolic. A key is the pair (code, salt); a MAC is the pair
  (key, message) or arbitrary junk; digests and certificate bodies are octets
  that name what they come from. Labels, session ids and DER headers are literal
  octets with real length encodings.
- Each content octet of a certificate or request names the whole of it, so such
  an encoding can also be recognised from its right end. Real DER offers only
  prefix-freeness, read from the left. `Join` never checks the length of the
  session id it is sent; when the joiner's has 16 octets like the coordinator's,
  agreement uses fixed lengths and prefix-freeness alone
  (`Messages.ClientMessageDetermines`, `Messages.ServerMessageDetermines`), and
  for any other length it rests on that stronger symbolic property.
- Time is an unbounded integer number of nanoseconds, and every clock reading of
  the source is its own parameter: a code is dated before the lock is taken, a
  session by a second reading inside it. Random draws (codes, ids, salts,
  serials) are parameters too. Certificates carry whole seconds.
- Maps are walked in arbitrary order; where an order matters to the source it is
  a parameter of the step, and results are proved independent of it or for all.
- In `Agreement` the network may replay anything, invent Begin and Complete
  messages and form MACs under every code that is not secret. A code may leak at
  any point of a run; what is promised is about the joins accepted before.
- `peak` in the pairing state records how many attempts ever overlapped, and
  `PairerSafety.NeverMorePending` says the same of a run directly.

## What the proofs say about the documentation

- The design note (`docs/adr/0002-pairing.md:55`) says the request's subject is
  not trusted. The code takes the name from the subject of the signed request
  (`internal/pki/pairing.go:284-285`), and the id announced to Begin is only
  logged. `PairerOutcomes.CertificatesNameSubjects` says what name every
  certificate carries, so it is the announced id exactly when the subject is;
  `HonestRun.AnnouncedIdIsNotCertified` gives a run for any two different names.
  For a joiner that runs `Join` the two coincide
  (`Agreement.CertificateHasJoiner`).
- The design note speaks of five failures per minute. Admission checks the limit
  before matching, so overlapping attempts exceed it.
  `PairerTightness.LimitExactly` gives the limit for every number of overlapping
  attempts; five is right exactly when attempts do not overlap.
- A code is spent before the request is parsed or signed, so a code can be
  consumed without a certificate (`PairerOutcomes.CodeIsWasted`). It buys one
  exactly when the request is signable (`HonestJoin.ServedExactly`), and
  `PairerOutcomes.SpentCodesEnd` carries that over all runs.
- The source says that an attempt whose code is gone at the end raced with
  another joiner (`internal/pki/pairing.go:273`). The code may also have expired
  since admission and been collected by anybody's call, so a joiner without a
  rival can be turned away (`PairerLosses.LostToNobody`). While nothing collects
  it, an expired code is still spent. `PairerLosses.LostExactly` gives the exact
  condition, and `HonestSteps.HonestJoinSucceeds` asks for no more than that
  nobody takes the code and that it does not end before the attempt finishes.
- An announcement that repeats an address can hide the loss of another one
  (`PeerTableSafety.LossGoesUnreported`). `DistinctExactly` and `RepeatsExactly`
  say for which announcements this cannot happen: those without a repeat.
- `peerChanged` does not compare meshes. A wildcard browser is not told when a
  peer moves to another mesh (`PeerTableSafety.MeshChangeUnreported`);
  `MeshToldExactly` says that only the wildcard suffers from this.
- `NewMDNS` does not look at the pairing port. A port above 65535 is advertised
  and then nobody can read the record (`PeerTableSafety.AcceptedNodesHear`).

## Model

| member | source | states |
|---|---|---|
| PairerSafety.LazyIsEager | internal/pki/pairing.go:180-252 | in every run, what a locked section sees after collecting equals the codes, sessions and failures in force now, computed from the history alone |
| PairerSafety.LedgerMeans | internal/pki/pairing.go:189-192 | a code is in the ledger with an expiry exactly when some issue with that expiry is its latest and no consumption followed |
| PairerSafety.OpeningsMeans | internal/pki/pairing.go:222-239 | a session is among the openings exactly when some opening of its id is the latest and no claim followed |
| PairerSafety.CodesAreConserved | internal/pki/pairing.go:248-296 | per code, certificates plus refusals plus signings under way equal consumptions, and consumptions plus one if still active never exceed issues, in every interleaving |
| PairerSafety.SessionsAreConserved | internal/pki/pairing.go:206-247 | per session id, claims plus one if still open never exceed openings; at most 32 sessions are ever open, each under its own 16-octet id with a 16-octet salt |
| PairerSafety.ConsumedCodesWereLive | internal/pki/pairing.go:236-278 | every consumed code was in force at the logged admission of its attempt and made that attempt's MAC |
| PairerSafety.AttemptsAreConserved | internal/pki/pairing.go:235-278 | every admitted attempt is pending, recorded one failure, spent one code or found its code gone, in every interleaving |
| PairerLosses.LostExactly | internal/pki/pairing.go:266-278 | in every run an attempt that matched is turned away if and only if its code was consumed since admission and not issued again, or had expired at the last collection and was not issued with it; never both, and otherwise it spends the code |
| PairerLosses.LostToNobody | internal/pki/pairing.go:272-276 | a run in which the holder of a code in force at admission is turned away although nothing was ever consumed |
| PairerLosses.KeptAlways | internal/pki/pairing.go:180-339 | in every run the stored codes are exactly those in the ledger that the last collection found unexpired or that were issued with it |
| PairerSafety.BeginAnswers | internal/pki/pairing.go:206-230 | each answer of Begin holds exactly under its condition on the codes, failures and sessions in force |
| PairerSafety.AdmitAnswers | internal/pki/pairing.go:236-252 | each answer of admission holds exactly under its condition, candidates are the codes in force, and the session is gone in every case |
| PairerSafety.FailuresAreSpaced | internal/pki/pairing.go:244-271 | if at most P attempts ever overlap, any 5 + P consecutive failures span at least a minute |
| PairerSafety.FailuresAreGenuine | internal/pki/pairing.go:248-278 | in every run, finishing an attempt records a failure exactly when no code in force at its admission made its MAC, whatever happened since |
| PairerSafety.InvStep | internal/pki/pairing.go:180-339 | every step keeps the whole invariant: books, limits and soundness of attempts and events |
| PairerTightness.BoundIsReached | internal/pki/pairing.go:244-271 | for every P at least 1 some run with at most P overlapping attempts records 4 + P failures at one instant |
| PairerTightness.LimitExactly | internal/pki/pairing.go:244-271 | with at most P overlapping attempts, P at least 1, a minute never sees more than L failures if and only if L is at least 4 + P; five is right exactly for P = 1 |
| PairerOutcomes.SpentCodesEnd | internal/pki/pairing.go:277-296 | per code and in every interleaving, certificates and signings under way match the spendings on signable requests, refusals those on other requests |
| PairerOutcomes.CertificatesNameSubjects | internal/pki/pairing.go:280-295 | in every run a certificate names a node of this mesh under the request's subject and carries its key, never an admin, an authority or another mesh; refusals are for unsignable requests |
| PairerOutcomes.EveryRequestSpends | internal/pki/pairing.go:254-296 | for every request a run exists that spends a code on it, and a certificate comes out exactly if the authority can sign and the request is signable |
| PairerOutcomes.CodeIsWasted | internal/pki/pairing.go:277-283 | a run that consumes a code and issues no certificate |
| PairerModel.MatchLoopFinds | internal/pki/pairing.go:254-264 | the loop returns the one candidate that made the MAC, and the empty string exactly when there is none |
| PairerModel.MatchIgnoresOrder | internal/pki/pairing.go:248-264 | the match is the same for every order of walking the code map |
| PairerModel.CertifyRefuses | internal/pki/ca.go:232-245 | a request is refused as bad exactly if it does not parse, is not signed by its own key or the key is not P-256, and for its name exactly if the subject is then no label |
| PairerModel.CodesAreEightDigits | internal/pki/pairing.go:59-65 | every drawn number gives eight digits whose value is that number |
| PairerModel.EveryCodeIsGenerated | internal/pki/pairing.go:59-78 | every well-formed code is the printed form of exactly its own value |
| PairerModel.RecentTwice | internal/pki/pairing.go:332-338 | collecting failures early changes nothing about a later collection |
| PairerModel.RecentMeans | internal/pki/pairing.go:332-338 | each failure younger than a minute is kept as often as it was recorded, and no other |
| PairerObject.ValidateCodeFormat | internal/pki/pairing.go:68-78 | accepts exactly eight decimal digits, which are the strings that code generation can produce |
| PairerObject.DropExpiredCodes | internal/pki/pairing.go:322-326 | deleting while walking leaves exactly the unexpired codes |
| PairerObject.DropExpiredSessions | internal/pki/pairing.go:327-331 | deleting while walking leaves exactly the unexpired sessions |
| PairerObject.FindMatch | internal/pki/pairing.go:256-264 | the early-exit loop computes the specified match |
| PairerObject.CompleteIsFourSteps | internal/pki/pairing.go:235-296 | a Complete nobody overlaps is admission, matching, finish and signing of the step system in a row, with the same store, refusal and outcome |
| PairerObject.CompleteAnswers | internal/pki/pairing.go:235-296 | in every reachable state, an undisturbed Complete answers unknown session, too many attempts or bad code exactly under its condition on what is in force, and otherwise spends the proven code and certifies exactly signable requests; the store is given in each case |
| PairerObject.Pairer.constructor | internal/pki/pairing.go:159-177 | starts with no codes, sessions or failures; a lifetime that is not positive becomes 30 days |
| PairerObject.Pairer.CompactFailures | internal/pki/pairing.go:332-338 | the in-place compaction keeps exactly the failures younger than a minute, in order |
| PairerObject.Pairer.Gc | internal/pki/pairing.go:320-339 | the object collects as the specification does |
| PairerObject.Pairer.Issue | internal/pki/pairing.go:180-194 | collects, then stores the code, which lives for the lifetime asked for or else for 60 seconds from the first clock reading |
| PairerObject.Pairer.ActiveCodes | internal/pki/pairing.go:197-202 | collects and counts the unexpired codes |
| PairerObject.Pairer.Begin | internal/pki/pairing.go:206-230 | refuses without a code, over the failure limit or over the session limit, in that order, and otherwise opens a session |
| PairerObject.Pairer.Admit | internal/pki/pairing.go:236-252 | removes the session whether or not it admits, and refuses unknown sessions and rate-limited attempts |
| PairerObject.Pairer.Finish | internal/pki/pairing.go:266-278 | records a failure, finds the code gone, or spends the code |
| PairerObject.Pairer.Complete | internal/pki/pairing.go:235-296 | store and result of an undisturbed Complete, with the one matching code named without reference to any order |
| Agreement.AcceptedJoinsAgree | internal/pairing/client.go:65-116 | whenever Join has succeeded under a code that is still secret, the coordinator had by then certified the same 16-octet session, salt, request, CA, node certificate and server certificate, and no later move, a leak included, changes that |
| Agreement.JoinsNeverExceedIssues | internal/pairing/client.go:65-116 | as long as a code is secret, successful joins on it never exceed the times it was issued |
| Agreement.AgreementIsInjective | internal/pairing/client.go:102-107 | no two joins agree with the same certification |
| Agreement.CertificateHasJoiner | internal/pki/pairing.go:254-296 | in every run, behind a certification under a secret code stands a joiner with that code, session, salt, request and server certificate, and the certificate carries its key and its node id |
| Agreement.WorldAlways | internal/pki/pairing.go:235-317 | every reachable world of coordinator, joiners and network satisfies the protocol invariant |
| HonestSteps.HonestJoinSucceeds | internal/pairing/client.go:38-132 | from any reachable state with code and session in force and no rate limit, with any steps of others between admission, matching, finish and signing except that nobody consumes the code and no issue of it ends before finish, Join accepts, returns the host it dialled with the coordinator's port, and the certificate loads as the joiner's identity |
| HonestSteps.HonestSpendsExactly | internal/pki/pairing.go:235-278 | the honest attempt spends its code if and only if nobody consumed it since admission and no collection took it expired |
| HonestSteps.HonestAdmitted | internal/pki/pairing.go:236-252 | the admitted attempt waits untouched and can be matched in every order of the codes in force |
| HonestSteps.HonestMatched | internal/pki/pairing.go:254-264 | however late and in whatever order it is matched, the attempt holds the joiner's code and can finish |
| HonestRun.SomeJoinIsAccepted | internal/pairing/client.go:38-132 | in the world of the agreement theorem, from an empty coordinator of any serving mesh, a run exists in which a joiner with an issued code is accepted |
| HonestRun.AgreementIsNotEmpty | internal/pairing/client.go:38-132 | a mesh, a secret code and a run with an accepted join on it exist |
| HonestRun.AnnouncedIdIsNotCertified | internal/pairing/server.go:91-104 | for any two names a run exists in which Begin is answered for the one and the certificate names the other, the request's subject |
| HonestRun.BeginServed | internal/pairing/server.go:91-104 | in every reachable state the service answers Begin with the refusal that applies or with the drawn session, salt and the authority's mesh |
| HonestJoin.ReplyPasses | internal/pairing/server.go:106-122 | the coordinator's reply passes every check Join makes, and the address returned is the dialled host, in brackets if it has a colon, with the coordinator's port |
| HonestJoin.ServedExactly | internal/pki/ca.go:232-245 | for every served mesh, signing succeeds if and only if the request parses, is signed by its own P-256 key and has a label for a subject |
| HonestJoin.SigningSucceeds | internal/pki/ca.go:232-245 | the joiner's own request yields the bundle with the certificate for its name and key and the server MAC |
| HonestJoin.MeshExists | internal/pairing/server.go:49-84 | any label and node name give a mesh whose coordinator serves |
| Joining.JoinYieldsIdentity | internal/pairing/client.go:87-131 | whatever reply Join accepts, the result loads as the joiner's own node identity at any time in both periods and accepts the coordinator named in the reply |
| Joining.JoinAcceptsExactly | internal/pairing/client.go:79-131 | Join accepts if and only if the endpoint is the one it began with, the reply is two certificates under one authority with its own name and key and the named coordinator's, under a MAC of its code, and both addresses split |
| Joining.JoinRefused | internal/pairing/client.go:93-124 | each later refusal of Join holds exactly under its condition |
| Joining.ReplyRefused | internal/pairing/client.go:79-96 | a changed endpoint and certificates that do not parse are refused exactly as such |
| Joining.BundleRefused | internal/pki/pairing.go:298-317 | each refusal of a bundle holds exactly under its condition, and it passes exactly with a right MAC, chain, role, name and mesh |
| Joining.JoinStartAnswers | internal/pairing/client.go:38-75 | a badly formed code, a bad node id and a missing server certificate are refused in that order; otherwise the joiner holds its own request |
| Joining.ServesOwnMesh | internal/pairing/server.go:52-72 | a coordinator serves exactly with an identity of the authority's mesh; certificates live 30 days unless another lifetime is given |
| Joining.SplitExactly | internal/pairing/client.go:118-125 | an address splits into host and port if and only if it is written so, with brackets or, without a colon in the host, plainly |
| Joining.HostPortRoundTrip | internal/pairing/client.go:118-130 | joining host and port and splitting again gives them back, colons in the host included |
| Messages.ClientMessageDetermines | internal/pki/pairing.go:87-94 | with 16-octet sessions and 32-octet hashes the client MAC input determines its three parts |
| Messages.ServerMessageDetermines | internal/pki/pairing.go:98-105 | with 16-octet sessions and a CA that is one complete DER element the server MAC input determines its three parts |
| Messages.ClientLayout | internal/pki/pairing.go:87-94 | the client MAC input is the label, 16 octets of session, 32 of hash and the request, in that order |
| Messages.ServerLayout | internal/pki/pairing.go:98-105 | the server MAC input is the label, 16 octets of session, the CA and the node certificate, in that order |
| Messages.LabelsSeparate | internal/pki/pairing.go:39-40 | no client MAC input is a server MAC input |
| Messages.ServerMessageOfCertificates | internal/pki/pairing.go:98-105 | for whole symbolic certificates the server MAC input determines its parts for any session length |
| Messages.ClientMessageOfRequest | internal/pki/pairing.go:87-94 | for a whole symbolic request and a certificate hash the client MAC input determines its parts for any session length |
| Der.ElementRoundTrip | internal/pairing/client.go:93-100 | the encoder writes one complete definite-length element with that content |
| Der.CompleteIsCanonical | internal/pairing/client.go:93-100 | a complete sequence is the one the encoder writes for its content; no longer or other header is read |
| Der.SplitsOneWay | internal/pki/pairing.go:102-103 | a concatenation whose first part is a complete element splits in one way |
| Pki.SignThenVerify | internal/pki/ca.go:182-276 | for a CA from NewCA, a signed certificate verifies to the requested principal exactly inside both validity periods, and fails outside them |
| Pki.VerifyExactly | internal/pki/ca.go:253-276 | for a CA from NewCA and any certificate, verification gives a principal if and only if the CA's key signed it under the CA's name, both periods cover the instant and the principal in it is of this mesh |
| Pki.ValidityExactly | internal/pki/ca.go:200-214 | a signed certificate verifies exactly from five minutes before signing to the end of the lifetime asked for, in whole seconds and within the CA's ten years, and never after or before |
| Pki.VerifyNeeds | internal/pki/ca.go:253-276 | under any root, what verifies is the root itself or was signed by an authority's key under its name inside its period, and bears its mesh |
| Pki.AuthorityIs | internal/pki/ca.go:116-152 | NewCA accepts exactly labels and makes a self-signed authority over its key, backdated five minutes and valid for ten years |
| Pki.SignAnswers | internal/pki/ca.go:182-199 | each refusal of Sign holds exactly under its condition, in the order of the checks |
| Pki.SignedSays | internal/pki/ca.go:200-228 | a signed certificate carries the name, mesh, key, URI text, DNS name for nodes only, period and signature of the CA's key |
| Pki.LoadExactly | internal/transport/grpc_mtls.go:44-63 | an identity loads exactly if the key is the certificate's and the certificate verifies, the key being checked first |
| Pki.ClockSkewTolerated | internal/pki/ca.go:48-49 | a verifier up to five minutes behind the signer, or before the last second of the lifetime, accepts the certificate |
| Pki.MeshAcceptsItsOwn | internal/transport/grpc_mtls.go:46-113 | any two identities signed by one CA carry their requested principals and pass each other's peer hook |
| Pki.PeersAcceptEachOther | internal/transport/grpc_mtls.go:101-113 | the peer hooks of two loaded identities accept each other if and only if their authorities name the same mesh |
| Pki.HookAnswers | internal/transport/grpc_mtls.go:101-113 | for any chain the hook refuses none, an unreadable principal and a foreign mesh, and accepts the rest |
| Pki.PrincipalRoundTrip | internal/pki/ca.go:70-89 | a principal survives rendering and parsing exactly when it has a mesh, a known role and a non-empty name without a slash |
| Pki.ParseExactly | internal/pki/ca.go:77-89 | a URL parses to a principal if and only if it has our scheme, its mesh as host and a path of a known role and a name without a slash |
| Pki.FirstUriDecides | internal/pki/ca.go:91-99 | the first URI of our scheme decides, whatever stands before and after it; without one there is no principal |
| Pki.UriTextRoundTrip | internal/pki/ca.go:70-99 | the same through the text of the URI in a certificate, for labels |
| Labels.ValidatorsAgree | internal/identity/nodeid.go:22-32 | the regular expression of one package and the loop of the other accept the same strings |
| Labels.ValidateLabel | internal/pki/ca.go:313-324 | the early-exit loop decides both validators: 1 to 63 lower-case letters, digits and hyphens, no hyphen first |
| Labels.SanitizeHost | internal/identity/nodeid.go:99-119 | whatever the letter mapping, the result has 1 to 56 label characters and no hyphen at either end |
| Labels.SanitizeMeans | internal/identity/nodeid.go:99-119 | the result is the core between the hyphens of the label characters before the first dot, of a longer core its first 56 characters less hyphens at the cut, and "node" if nothing is left |
| Labels.CoreExists | internal/identity/nodeid.go:110-110 | every text is a core without a hyphen at either end between hyphens, so sanitizing is settled for every host name |
| Labels.KeepOne | internal/identity/nodeid.go:104-109 | each label character survives in its place and every other character is deleted |
| Labels.CleanHostKept | internal/identity/nodeid.go:99-119 | a host name that is a short lower-case label survives, with its domain cut off |
| Labels.Generate | internal/identity/nodeid.go:88-95 | for every host name the generated id passes both validators |
| PeerTableSafety.EventsRebuildTable | internal/discovery/mdns.go:225-277 | if every announcement that is not ignored lists its addresses once, replaying all generated events rebuilds the table: same peers, same ports, host, fingerprint and address set, and outside wildcard mode the same mesh |
| PeerTableSafety.DistinctExactly | internal/discovery/mdns.go:288-305 | an announcement repeats no address if and only if, against every earlier one, no reported change means the same ports, host, fingerprint and address set |
| PeerTableSafety.RepeatsExactly | internal/discovery/mdns.go:225-305 | an announcement that is heard keeps the events able to rebuild the table after every run if and only if it repeats no address |
| PeerTableSafety.LossGoesUnreported | internal/discovery/mdns.go:253-304 | a run of two announcements of one rendered record after which the events still tell an address that the table has lost |
| PeerTableSafety.MeshToldExactly | internal/discovery/mdns.go:225-305 | a heard announcement keeps the events able to tell every peer's mesh too, after every run, if and only if it repeats no address and the browser is no wildcard one |
| PeerTableSafety.MeshChangeUnreported | internal/discovery/mdns.go:253-304 | a run in which a wildcard browser's events keep telling the mesh a peer has left |
| PeerTableSafety.ChangedExactly | internal/discovery/mdns.go:288-305 | for lists without repeats a change is reported exactly when something a dialer uses differs |
| PeerTableSafety.EventsFollowGrammar | internal/discovery/mdns.go:253-276 | each peer's events follow (Added Updated* Expired)* with an open tail, and the peer is in the table exactly when its last event is no expiry |
| PeerTableSafety.TableAlwaysSound | internal/discovery/mdns.go:231-250 | the table never holds our own id or, outside wildcard mode, a foreign mesh |
| PeerTableSafety.AdvertisementArrives | internal/discovery/mdns.go:225-261 | an advertisement reaches another node's table field by field, and is ignored by its sender and by other meshes |
| PeerTableSafety.AcceptedNodesHear | internal/discovery/mdns.go:86-250 | of two accepted nodes with different ids one hears the other if and only if they name one mesh or the listener browses all, and the pairing port is at most 65535 |
| PeerTableSafety.StalenessIsBounded | internal/discovery/mdns.go:205-272 | while sweeps keep to their period no entry is older than 4/3 of the expiry time, and a sweep removes exactly the entries silent for longer than it |
| PeerTableSafety.SweepReports | internal/discovery/mdns.go:263-277 | in every reachable state a sweep reports each entry it takes away, as it stood in the table, once and nothing else |
| PeerTableSafety.ChannelAlwaysSound | internal/discovery/mdns.go:279-285 | delivered and buffered events are an ordered part of the generated ones, the counts add up, and the buffer keeps its bound |
| PeerTableSafety.NothingDroppedWithRoom | internal/discovery/mdns.go:279-285 | events are dropped only for want of room |
| PeerTableSafety.OldestAreKept | internal/discovery/mdns.go:279-285 | a channel without room keeps the oldest events in order and drops the newest, and counts them |
| PeerTableSafety.OldestIsTaken | internal/discovery/mdns.go:182-182 | a consumer gets the oldest buffered event, and nothing changes if there is none |
| PeerTableSafety.DropsNeverTouchTheTable | internal/discovery/mdns.go:225-285 | runs on the same input have the same table and events whatever is buffered, read or dropped |
| PeerTable.NewMdns | internal/discovery/mdns.go:86-115 | accepts exactly non-empty ids, a gRPC port in range and no wildcard mesh unless only browsing, and names the refusal; expiry and buffer are kept when positive and default to 90 s and 64 |
| MdnsObject.ComparePeers | internal/discovery/mdns.go:288-305 | the two address loops compute the specified comparison |
| MdnsObject.RemoveSilent | internal/discovery/mdns.go:264-272 | deleting while walking removes exactly the silent peers and lists each once |
| MdnsObject.Mdns.constructor | internal/discovery/mdns.go:108-114 | starts with an empty table and an empty channel |
| MdnsObject.Mdns.Emit | internal/discovery/mdns.go:279-285 | appends when there is room and drops otherwise |
| MdnsObject.Mdns.Take | internal/discovery/mdns.go:182-182 | a consumer receives the oldest buffered event |
| MdnsObject.Mdns.HandleEntry | internal/discovery/mdns.go:225-261 | table and channel after one browse result |
| MdnsObject.Mdns.Expire | internal/discovery/mdns.go:263-277 | table and channel after one sweep, in some order of the silent peers |
| Hosts.NormalizeHost | internal/discovery/mdns.go:316-322 | terminates with the specified name, which never ends in a doubled domain |
| Hosts.NormalizeRemovesCopies | internal/discovery/mdns.go:316-322 | a trailing dot goes and any number of copies of the domain become one, or none if there was none |
| Hosts.NormalizeComplete | internal/discovery/mdns.go:316-322 | every host name has that form, so its normalised name is the base with at most one copy of the domain |
| Hosts.StripLeavesOne | internal/discovery/mdns.go:318-320 | a name followed by k copies of the domain keeps one of them, or none if there was none |
| Hosts.EveryHostDecomposes | internal/discovery/mdns.go:318-320 | every name is a name without the domain at its end followed by some copies of it |
| Txt.TxtRoundTrip | internal/discovery/peer.go:54-151 | parsing a rendered record recovers every field exactly for non-empty ids, a port in range and a pairing port in range or absent |
| Txt.ParseAnswers | internal/discovery/peer.go:111-151 | what is missing or wrong in any record is named in the order of the checks, ports from 1 to 65535 are read, and a missing pairing port is 0 |
| Txt.InsertChangesNothing | internal/discovery/peer.go:111-121 | inserting a string without '=', with an undefined key or with a key already given changes nothing |
| Txt.RenderTxt | internal/discovery/peer.go:54-67 | the rendered record parses back to every field if and only if the ids are non-empty, the port is in range and the pairing port is in range or absent; its strings are given, the optional ones only when there is something to say |
| Txt.CollectPairs | internal/discovery/peer.go:112-121 | the map holds the first value of every key |
| Txt.ParseTxtRecord | internal/discovery/peer.go:111-151 | decoding through the map equals decoding by first occurrence, errors included |
| Decimal.PrintThenParse | internal/discovery/peer.go:58-61 | an integer survives printing and parsing exactly if it has 64 bits, and is refused otherwise |
| Decimal.OnlyDigitsParse | internal/discovery/peer.go:129-145 | only digits with at most one sign before them parse |

## Left out

- gRPC, TLS and multicast plumbing: a connection is only the certificate the peer presented, a browse result only its entry.
- Argon2id, HMAC, SHA-256, ECDSA and X.509 parsing: symbolic terms; nothing is proved about their strength or timing.
- Escapes, ports, user info and queries in URIs: labels contain no character that needs them; an authority loaded with another mesh id is not covered by the text round trip.
- Saturation of time differences: differences of instants are exact integers here.
- Address printing: addresses are compared by their printed form and kept in it.
- Files and command lines (pem.go, LoadOrCreate, Set, Persist, the mains): input and output only.
- Peers, PairAddr and GRPCAddr: a sorted snapshot and formatting, which would only add easy members.
- SetFingerprint, logging, toStatus, RequireRole and the lifetime cap of the admin service: single-branch facts.
- Scheduler, failover, batching and telemetry: designed but not implemented in the repository.
- Probabilities of guessing a code: the agreement theorem is about codes the network does not hold.
- MdnsObject.Mdns.Take: models one non-blocking receive; a consumer that waits is not modelled.
- Messages.ServerMessageOfCertificates: rests on content octets that name their certificate, which real DER does not provide; agreement uses it only for session ids of the joiner that have not 16 octets.
- Messages.ClientMessageOfRequest: rests on content octets that name their request, likewise.
- PairerObject.Pairer.constructor: the missing-argument errors of the source cannot arise, because references here are never absent.
- PairerObject.Pairer.Begin: failures of the random source are not modelled.
- PairerObject.Pairer.Issue: failures of the random source are not modelled.
