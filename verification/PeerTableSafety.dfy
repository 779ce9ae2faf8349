/** What the event stream says about the table, in every run. */
module PeerTableSafety {
  import opened Terms
  import opened Txt
  import opened PeerTable
  import Hosts

  // When an announcement changes nothing.

  function AddrSet(p: Peer): set<string>
  {
    set ip | ip in p.addrs
  }

  predicate Distinct(s: seq<string>)
  {
    forall i, j | 0 <= i < j < |s| :: s[i] != s[j]
  }

  /** Equal in everything a dialer uses, up to the order of addresses. */
  predicate SameToDial(a: Peer, b: Peer)
  {
    && a.grpcPort == b.grpcPort && a.pairPort == b.pairPort
    && a.fingerprint == b.fingerprint && a.hostname == b.hostname
    && AddrSet(a) == AddrSet(b)
  }

  lemma {:induction false} DistinctSize(s: seq<string>)
    ensures |set x | x in s| <= |s|
    ensures Distinct(s) ==> |set x | x in s| == |s|
  {
    if s != [] {
      var n := |s| - 1;
      DistinctSize(s[..n]);
      assert (set x | x in s) == (set x | x in s[..n]) + {s[n]};
      if Distinct(s) {
        assert s[n] !in s[..n];
      }
    }
  }

  lemma {:induction false} SubsetOfEqualSize(a: set<string>, b: set<string>)
    requires a <= b && |b| <= |a|
    ensures a == b
  {
    if a != {} {
      var x :| x in a;
      SubsetOfEqualSize(a - {x}, b - {x});
      assert a == (a - {x}) + {x} && b == (b - {x}) + {x};
    }
  }

  /** If the newer announcement lists each address once, `unchanged` means the same to dial: equal
      length and inclusion leave no room for an address that went away. */
  lemma UnchangedIsSame(a: Peer, b: Peer)
    requires Distinct(b.addrs) && !PeerChanged(a, b)
    ensures SameToDial(a, b)
  {
    DistinctSize(a.addrs);
    DistinctSize(b.addrs);
    assert AddrSet(b) <= AddrSet(a);
    SubsetOfEqualSize(AddrSet(b), AddrSet(a));
  }

  /** On announcements that list each address once, no event is skipped and none is superfluous. */
  lemma ChangedExactly(a: Peer, b: Peer)
    requires Distinct(a.addrs) && Distinct(b.addrs)
    ensures PeerChanged(a, b) <==> !SameToDial(a, b)
  {
    if !PeerChanged(a, b) {
      UnchangedIsSame(a, b);
    }
    if SameToDial(a, b) {
      DistinctSize(a.addrs);
      DistinctSize(b.addrs);
      forall ip | ip in b.addrs ensures ip in a.addrs {
        assert ip in AddrSet(b);
      }
    }
  }

  /** A text longer than every one in the list. */
  function Novel(s: seq<string>): (r: string)
    ensures forall i | 0 <= i < |s| :: |s[i]| < |r|
  {
    if s == [] then "x"
    else
      var n := |s| - 1;
      var r := Novel(s[..n]);
      if |s[n]| < |r| then r else s[n] + "x"
  }

  /** The announcement before `b` that its second mention of an address makes look the same: another
      address stands in that place. */
  lemma RepeatHidesLoss(b: Peer, i: nat, j: nat)
    requires i < j < |b.addrs| && b.addrs[i] == b.addrs[j]
    ensures var a := b.(addrs := b.addrs[j := Novel(b.addrs)]);
            !PeerChanged(a, b) && !SameToDial(a, b)
  {
    var novel := Novel(b.addrs);
    var a := b.(addrs := b.addrs[j := novel]);
    forall ip | ip in b.addrs ensures ip in a.addrs {
      var k :| 0 <= k < |b.addrs| && b.addrs[k] == ip;
      assert a.addrs[if k == j then i else k] == ip;
    }
    assert a.addrs[j] == novel;
    assert novel in AddrSet(a) && novel !in AddrSet(b);
  }

  /** Exactly the announcements that list each address once are compared without loss, whatever was
      announced before. */
  lemma DistinctExactly(b: Peer)
    ensures Distinct(b.addrs) <==> forall a: Peer | !PeerChanged(a, b) :: SameToDial(a, b)
  {
    if Distinct(b.addrs) {
      forall a: Peer | !PeerChanged(a, b) ensures SameToDial(a, b) {
        UnchangedIsSame(a, b);
      }
    } else {
      var i, j :| 0 <= i < j < |b.addrs| && b.addrs[i] == b.addrs[j];
      RepeatHidesLoss(b, i, j);
    }
  }

  // Replaying the events.

  function ReplayOne(t: Table, e: PeerEvent): Table
  {
    if e.kind.Expired? then t - {e.peer.nodeId} else t[e.peer.nodeId := e.peer]
  }

  function Replay(es: seq<PeerEvent>): Table
  {
    if es == [] then map[] else ReplayOne(Replay(es[..|es| - 1]), es[|es| - 1])
  }

  /** The replayed table stands for the real one. */
  ghost predicate Mirrors(cfg: Settings, mirror: Table, table: Table)
  {
    && mirror.Keys == table.Keys
    && forall id | id in table ::
         && SameToDial(mirror[id], table[id])
         && mirror[id].nodeId == table[id].nodeId
         && (cfg.meshId != ANY_MESH ==> mirror[id].meshId == table[id].meshId)
  }

  lemma ReplaySnoc(es: seq<PeerEvent>, e: PeerEvent)
    ensures Replay(es + [e]) == ReplayOne(Replay(es), e)
  {
    assert (es + [e])[..|es|] == es;
  }

  lemma {:induction false} ReplayExpiry(es: seq<PeerEvent>, table: Table, order: seq<string>)
    requires forall i | 0 <= i < |order| :: order[i] in table && table[order[i]].nodeId == order[i]
    ensures Replay(es + ExpiredEvents(table, order)) == Replay(es) - (set id | id in order)
  {
    if order == [] {
      assert es + ExpiredEvents(table, order) == es;
    } else {
      var n := |order| - 1;
      var front := order[..n];
      ReplayExpiry(es, table, front);
      var last := PeerEvent(Expired, table[order[n]]);
      assert es + ExpiredEvents(table, order) == es + ExpiredEvents(table, front) + [last];
      ReplaySnoc(es + ExpiredEvents(table, front), last);
      assert (set id | id in order) == (set id | id in front) + {order[n]};
    }
  }

  lemma {:induction false} EmitAllGenerates(ch: Channel, capacity: nat, es: seq<PeerEvent>)
    ensures EmitAll(ch, capacity, es).generated == ch.generated + es
    ensures EmitAll(ch, capacity, es).delivered == ch.delivered
  {
    if es == [] {
      assert ch.generated + es == ch.generated;
    } else {
      var n := |es| - 1;
      EmitAllGenerates(ch, capacity, es[..n]);
      assert ch.generated + es[..n] + [es[n]] == ch.generated + es by {
        assert es == es[..n] + [es[n]];
      }
    }
  }

  lemma GeneratedStep(cfg: Settings, s: State, step: Step)
    ensures Apply(cfg, s, step).channel.generated == s.channel.generated + EventsOf(cfg, s.table, step)
    ensures Apply(cfg, s, step).table == TableAfter(cfg, s.table, step)
  {
    EmitAllGenerates(s.channel, cfg.eventBuffer, EventsOf(cfg, s.table, step));
    assert s.channel.generated + [] == s.channel.generated;
  }

  /** The table holds peers under their own ids, never us, and never a foreign mesh. */
  ghost predicate TableSound(cfg: Settings, table: Table)
  {
    forall id | id in table ::
      && table[id].nodeId == id && id != cfg.nodeId
      && (cfg.meshId != ANY_MESH ==> table[id].meshId == cfg.meshId)
  }

  lemma HeardSays(cfg: Settings, e: Entry, now: Time)
    requires Heard(cfg, e, now).Some?
    ensures var p := Heard(cfg, e, now).value;
            && p.nodeId != cfg.nodeId && p.lastSeen == now && p.addrs == e.addr4 + e.addr6
            && (cfg.meshId != ANY_MESH ==> p.meshId == cfg.meshId)
  {
  }

  /** From one node's advertisement to another's table: an entry carrying a rendered record, heard by
      another node of the mesh (or a wildcard browser), puts exactly the advertised fields into the
      table, with the port of the service entry preferred; anybody else ignores it. */
  lemma AdvertisementArrives(cfg: Settings, ad: Advertisement, e: Entry, table: Table, now: Time)
    requires Advertisable(ad) && e.text == TxtOf(ad)
    ensures var after := TableAfter(cfg, table, Hear(e, now));
            if ad.nodeId == cfg.nodeId || (cfg.meshId != ANY_MESH && ad.meshId != cfg.meshId) then
              after == table && EventsOf(cfg, table, Hear(e, now)) == []
            else
              var p := Peer(ad.nodeId, ad.meshId, ad.fingerprint, Hosts.Normalized(e.hostName), e.addr4 + e.addr6,
                            if e.port > 0 then e.port else ad.grpcPort, ad.pairPort, now);
              && after == table[ad.nodeId := p]
              && (ad.nodeId !in table ==> EventsOf(cfg, table, Hear(e, now)) == [PeerEvent(Added, p)])
  {
    TxtRoundTrip(ad);
  }

  /** Two nodes that NewMDNS accepts under different ids hear each other exactly when they name the
      same mesh or the listener browses all, and the pairing port is not beyond the range; NewMDNS
      does not look at that port. */
  lemma AcceptedNodesHear(ad: Advertisement, expireAfter: Time, buffer: int,
                          mine: Advertisement, browseOnly: bool, expireAfter': Time, buffer': int, e: Entry, now: Time)
    requires NewMdns(ad, false, expireAfter, buffer).Ok? && NewMdns(mine, browseOnly, expireAfter', buffer').Ok?
    requires ad.nodeId != mine.nodeId && e.text == TxtOf(ad)
    ensures var cfg := NewMdns(mine, browseOnly, expireAfter', buffer').value;
            Heard(cfg, e, now).Some?
            <==> ad.pairPort <= MAX_PORT && (ad.meshId == mine.meshId || (browseOnly && mine.meshId == ANY_MESH))
  {
    if ad.pairPort > MAX_PORT {
      TxtRefused(ad);
    } else {
      var plain := ad.(pairPort := if ad.pairPort < 0 then 0 else ad.pairPort);
      assert TxtOf(ad) == TxtOf(plain);
      TxtRoundTrip(plain);
    }
  }

  lemma TableSoundStep(cfg: Settings, table: Table, step: Step)
    requires TableSound(cfg, table)
    ensures TableSound(cfg, TableAfter(cfg, table, step))
  {
  }

  predicate ListsOnce(e: Entry)
  {
    Distinct(e.addr4 + e.addr6)
  }

  /** Writing the announced peer on both sides. */
  lemma MirrorsWritten(cfg: Settings, mirror: Table, table: Table, p: Peer)
    requires Mirrors(cfg, mirror, table)
    ensures Mirrors(cfg, mirror[p.nodeId := p], table[p.nodeId := p])
  {
  }

  /** Writing it into the table alone, when it is the same to dial as before. */
  lemma MirrorsKept(cfg: Settings, mirror: Table, table: Table, p: Peer)
    requires Mirrors(cfg, mirror, table) && TableSound(cfg, table) && p.nodeId in table
    requires SameToDial(table[p.nodeId], p) && (cfg.meshId != ANY_MESH ==> p.meshId == cfg.meshId)
    ensures Mirrors(cfg, mirror, table[p.nodeId := p])
  {
    assert table[p.nodeId := p].Keys == table.Keys;
  }

  lemma MirrorsHear(cfg: Settings, es: seq<PeerEvent>, table: Table, p: Peer)
    requires Mirrors(cfg, Replay(es), table) && TableSound(cfg, table)
    requires Distinct(p.addrs) && (cfg.meshId != ANY_MESH ==> p.meshId == cfg.meshId)
    ensures Mirrors(cfg, Replay(es + EventsFor(table, p)), table[p.nodeId := p])
  {
    var added := EventsFor(table, p);
    if added == [] {
      assert es + added == es;
      UnchangedIsSame(table[p.nodeId], p);
      MirrorsKept(cfg, Replay(es), table, p);
    } else {
      assert added == [added[0]] && added[0].peer == p && !added[0].kind.Expired?;
      ReplaySnoc(es, added[0]);
      MirrorsWritten(cfg, Replay(es), table, p);
    }
  }

  /** The state's events tell its table. */
  ghost predicate Told(cfg: Settings, s: State)
  {
    Mirrors(cfg, Replay(s.channel.generated), s.table)
  }

  lemma MirrorsStep(cfg: Settings, s: State, step: Step)
    requires Enabled(cfg, s, step) && TableSound(cfg, s.table) && Told(cfg, s)
    requires step.Hear? && Heard(cfg, step.entry, step.at).Some? ==> ListsOnce(step.entry)
    ensures Told(cfg, Apply(cfg, s, step))
  {
    GeneratedStep(cfg, s, step);
    var es := s.channel.generated;
    match step
    case Hear(e, at) =>
      if Heard(cfg, e, at).Some? {
        HeardSays(cfg, e, at);
        MirrorsHear(cfg, es, s.table, Heard(cfg, e, at).value);
      } else {
        assert es + [] == es;
      }
    case Sweep(instant, order) =>
      ReplayExpiry(es, s.table, order);
      assert (set id | id in order) == Silent(cfg, s.table, instant);
    case _ => assert es + [] == es;
  }

  /** Replaying every event ever generated rebuilds the table: same peers, and each one the same to
      dial as the real entry, when every announcement that is not ignored lists its addresses once. */
  lemma {:induction false} EventsRebuildTable(cfg: Settings, start: Time, steps: seq<Step>)
    requires Exec(cfg, start, steps).Some?
    requires forall i | 0 <= i < |steps| ::
               steps[i].Hear? && Heard(cfg, steps[i].entry, steps[i].at).Some? ==> ListsOnce(steps[i].entry)
    ensures var s := Exec(cfg, start, steps).value;
            Mirrors(cfg, Replay(s.channel.generated), s.table)
  {
    if steps != [] {
      var n := |steps| - 1;
      EventsRebuildTable(cfg, start, steps[..n]);
      TableAlwaysSound(cfg, start, steps[..n]);
      MirrorsStep(cfg, Exec(cfg, start, steps[..n]).value, steps[n]);
    }
  }

  // Why the condition is needed: two announcements of one peer.

  lemma ExecSnoc(cfg: Settings, start: Time, steps: seq<Step>, step: Step)
    requires Exec(cfg, start, steps).Some? && Enabled(cfg, Exec(cfg, start, steps).value, step)
    ensures Exec(cfg, start, steps + [step]) == Some(Apply(cfg, Exec(cfg, start, steps).value, step))
  {
    assert (steps + [step])[..|steps|] == steps;
  }

  lemma HearStep(cfg: Settings, s: State, e: Entry, at: Time)
    requires Heard(cfg, e, at).Some?
    ensures var s', p := Apply(cfg, s, Hear(e, at)), Heard(cfg, e, at).value;
            && s'.now == at && s'.table == s.table[p.nodeId := p]
            && s'.channel.generated == s.channel.generated + EventsFor(s.table, p)
  {
    GeneratedStep(cfg, s, Hear(e, at));
  }

  lemma FirstHear(cfg: Settings, e: Entry, t: Time) returns (s: State)
    requires Heard(cfg, e, t).Some?
    ensures Exec(cfg, t, [Hear(e, t)]) == Some(s) && s.now == t
    ensures var p := Heard(cfg, e, t).value;
            s.table == map[p.nodeId := p] && s.channel.generated == [PeerEvent(Added, p)]
  {
    s := Apply(cfg, Initial(t), Hear(e, t));
    HearStep(cfg, Initial(t), e, t);
    assert [Hear(e, t)][..0] == [];
  }

  /** Table and events after the first announcement and after the second. */
  lemma TwoHears(cfg: Settings, e: Entry, e': Entry, t: Time) returns (s: State, s': State)
    requires Heard(cfg, e, t).Some? && Heard(cfg, e', t).Some?
    requires Heard(cfg, e, t).value.nodeId == Heard(cfg, e', t).value.nodeId
    ensures Exec(cfg, t, [Hear(e, t)]) == Some(s) && Exec(cfg, t, [Hear(e, t), Hear(e', t)]) == Some(s')
    ensures s.now == t && Enabled(cfg, s, Hear(e', t)) && s' == Apply(cfg, s, Hear(e', t))
    ensures var p, p' := Heard(cfg, e, t).value, Heard(cfg, e', t).value;
            && s.table == map[p.nodeId := p] && s.channel.generated == [PeerEvent(Added, p)]
            && s'.table == map[p.nodeId := p']
            && s'.channel.generated
               == [PeerEvent(Added, p)] + if PeerChanged(p, p') then [PeerEvent(Updated, p')] else []
  {
    var p, p' := Heard(cfg, e, t).value, Heard(cfg, e', t).value;
    s := FirstHear(cfg, e, t);
    s' := Apply(cfg, s, Hear(e', t));
    HearStep(cfg, s, e', t);
    ExecSnoc(cfg, t, [Hear(e, t)], Hear(e', t));
    assert [Hear(e, t)] + [Hear(e', t)] == [Hear(e, t), Hear(e', t)];
    assert s'.table == s.table[p.nodeId := p'] == map[p.nodeId := p'];
  }

  lemma OneEntry(cfg: Settings, p: Peer, p': Peer)
    requires p.nodeId == p'.nodeId && (cfg.meshId != ANY_MESH ==> p.meshId == p'.meshId)
    ensures Mirrors(cfg, map[p.nodeId := p], map[p.nodeId := p']) <==> SameToDial(p, p')
  {
    var mirror, table := map[p.nodeId := p], map[p.nodeId := p'];
    assert mirror.Keys == table.Keys == {p.nodeId};
    assert mirror[p.nodeId] == p && table[p.nodeId] == p';
  }

  lemma ReplayOneEntry(p: Peer, p': Peer)
    requires p.nodeId == p'.nodeId
    ensures Replay([PeerEvent(Added, p)]) == map[p.nodeId := p]
    ensures Replay([PeerEvent(Added, p)] + [PeerEvent(Updated, p')]) == map[p.nodeId := p']
  {
    ReplaySnoc([], PeerEvent(Added, p));
    assert [] + [PeerEvent(Added, p)] == [PeerEvent(Added, p)];
    ReplaySnoc([PeerEvent(Added, p)], PeerEvent(Updated, p'));
  }

  /** After two announcements of one peer its events tell the table exactly when the second was
      reported as a change or was none. */
  lemma TwoHearsTell(cfg: Settings, e: Entry, e': Entry, t: Time) returns (s: State, s': State)
    requires Heard(cfg, e, t).Some? && Heard(cfg, e', t).Some?
    requires Heard(cfg, e, t).value.nodeId == Heard(cfg, e', t).value.nodeId
    ensures Exec(cfg, t, [Hear(e, t)]) == Some(s) && Exec(cfg, t, [Hear(e, t), Hear(e', t)]) == Some(s')
    ensures s.now == t && Enabled(cfg, s, Hear(e', t)) && s' == Apply(cfg, s, Hear(e', t)) && Told(cfg, s)
    ensures var p, p' := Heard(cfg, e, t).value, Heard(cfg, e', t).value;
            Told(cfg, s') <==> PeerChanged(p, p') || SameToDial(p, p')
  {
    s, s' := TwoHears(cfg, e, e', t);
    HeardSays(cfg, e, t);
    HeardSays(cfg, e', t);
    TwoTells(cfg, Heard(cfg, e, t).value, Heard(cfg, e', t).value, s, s');
  }

  lemma TwoTells(cfg: Settings, p: Peer, p': Peer, s: State, s': State)
    requires p.nodeId == p'.nodeId && (cfg.meshId != ANY_MESH ==> p.meshId == p'.meshId)
    requires s.table == map[p.nodeId := p] && s.channel.generated == [PeerEvent(Added, p)]
             && s'.table == map[p.nodeId := p']
    requires s'.channel.generated == [PeerEvent(Added, p)] + if PeerChanged(p, p') then [PeerEvent(Updated, p')] else []
    ensures Told(cfg, s) && (Told(cfg, s') <==> PeerChanged(p, p') || SameToDial(p, p'))
  {
    OneEntry(cfg, p, p);
    OneEntry(cfg, p, p');
    OneEntry(cfg, p', p');
    ReplayOneEntry(p, p');
    assert !PeerChanged(p, p') ==> s'.channel.generated == [PeerEvent(Added, p)];
  }

  /** Hearing `e` leaves the events able to tell the table, whatever run came before. */
  ghost predicate AlwaysTold(cfg: Settings, e: Entry)
  {
    forall start, steps, at | Exec(cfg, start, steps).Some? && Told(cfg, Exec(cfg, start, steps).value)
        && at >= Exec(cfg, start, steps).value.now ::
      Told(cfg, Apply(cfg, Exec(cfg, start, steps).value, Hear(e, at)))
  }

  lemma HeardTwin(cfg: Settings, e: Entry, t: Time, addrs: seq<string>)
    requires Heard(cfg, e, t).Some?
    ensures Heard(cfg, e.(addr4 := addrs, addr6 := []), t) == Some(Heard(cfg, e, t).value.(addrs := addrs))
  {
    assert addrs + [] == addrs;
  }

  /** The exact condition over runs: the announcements that never make the events lose the table are
      those that list each address once. */
  lemma RepeatsExactly(cfg: Settings, e: Entry)
    requires Heard(cfg, e, 0).Some?
    ensures ListsOnce(e) <==> AlwaysTold(cfg, e)
  {
    if ListsOnce(e) {
      forall start, steps, at | Exec(cfg, start, steps).Some? && Told(cfg, Exec(cfg, start, steps).value)
          && at >= Exec(cfg, start, steps).value.now
        ensures Told(cfg, Apply(cfg, Exec(cfg, start, steps).value, Hear(e, at)))
      {
        TableAlwaysSound(cfg, start, steps);
        MirrorsStep(cfg, Exec(cfg, start, steps).value, Hear(e, at));
      }
    } else {
      var all := e.addr4 + e.addr6;
      var i, j :| 0 <= i < j < |all| && all[i] == all[j];
      var before := all[j := Novel(all)];
      HeardTwin(cfg, e, 0, before);
      RepeatHidesLoss(Heard(cfg, e, 0).value, i, j);
      var s, s' := TwoHearsTell(cfg, e.(addr4 := before, addr6 := []), e, 0);
    }
  }

  /** One such run, from a rendered record: the consumer still dials an address that is gone. */
  lemma LossGoesUnreported(cfg: Settings, ad: Advertisement, host: string, port: int, ip: string, gone: string, t: Time)
    returns (s: State)
    requires Advertisable(ad) && ad.nodeId != cfg.nodeId && (cfg.meshId == ANY_MESH || ad.meshId == cfg.meshId)
    requires ip != gone
    ensures var e := Entry(TxtOf(ad), host, port, [ip, gone], []);
            Exec(cfg, t, [Hear(e, t), Hear(e.(addr4 := [ip, ip]), t)]) == Some(s)
    ensures var mirror := Replay(s.channel.generated);
            && ad.nodeId in mirror && ad.nodeId in s.table
            && gone in mirror[ad.nodeId].addrs && gone !in s.table[ad.nodeId].addrs
            && !Mirrors(cfg, mirror, s.table)
  {
    var e := Entry(TxtOf(ad), host, port, [ip, gone], []);
    var e' := e.(addr4 := [ip, ip]);
    HeardAdvert(cfg, ad, e, t);
    HeardTwin(cfg, e, t, [ip, gone]);
    HeardTwin(cfg, e, t, [ip, ip]);
    var before: State;
    before, s := TwoHears(cfg, e, e', t);
    LossHidden(Heard(cfg, e, t).value, ip, gone);
    LossKept(cfg, Heard(cfg, e, t).value, Heard(cfg, e', t).value, s, gone);
  }

  lemma HeardAdvert(cfg: Settings, ad: Advertisement, e: Entry, t: Time)
    requires Advertisable(ad) && ad.nodeId != cfg.nodeId && (cfg.meshId == ANY_MESH || ad.meshId == cfg.meshId)
    requires e.text == TxtOf(ad)
    ensures Heard(cfg, e, t).Some? && Heard(cfg, e, t).value.nodeId == ad.nodeId
  {
    TxtRoundTrip(ad);
  }

  lemma LossHidden(p: Peer, ip: string, gone: string)
    requires ip != gone && p.addrs == [ip, gone]
    ensures !PeerChanged(p, p.(addrs := [ip, ip]))
    ensures gone in AddrSet(p) && gone !in AddrSet(p.(addrs := [ip, ip]))
  {
    assert p.addrs[0] == ip && p.addrs[1] == gone;
  }

  lemma LossKept(cfg: Settings, p: Peer, p': Peer, s: State, gone: string)
    requires p.nodeId == p'.nodeId && gone in AddrSet(p) && gone !in AddrSet(p')
    requires s.table == map[p.nodeId := p'] && s.channel.generated == [PeerEvent(Added, p)] + []
    ensures var mirror := Replay(s.channel.generated);
            && p.nodeId in mirror && p.nodeId in s.table
            && gone in mirror[p.nodeId].addrs && gone !in s.table[p.nodeId].addrs
            && !Mirrors(cfg, mirror, s.table)
  {
    ReplayOneEntry(p, p);
    assert s.channel.generated == [PeerEvent(Added, p)];
    assert !SameToDial(p, p');
  }

  // The mesh of a peer, which only a wildcard browser can see change.

  /** The events also tell every peer's mesh. */
  ghost predicate ToldMesh(cfg: Settings, s: State)
  {
    var mirror := Replay(s.channel.generated);
    Told(cfg, s) && forall id | id in s.table :: id in mirror && mirror[id].meshId == s.table[id].meshId
  }

  ghost predicate AlwaysToldMesh(cfg: Settings, e: Entry)
  {
    forall start, steps, at | Exec(cfg, start, steps).Some? && ToldMesh(cfg, Exec(cfg, start, steps).value)
        && at >= Exec(cfg, start, steps).value.now ::
      ToldMesh(cfg, Apply(cfg, Exec(cfg, start, steps).value, Hear(e, at)))
  }

  lemma MeshIsTold(cfg: Settings, s: State)
    requires cfg.meshId != ANY_MESH
    ensures ToldMesh(cfg, s) <==> Told(cfg, s)
  {
  }

  /** The same record with a mesh id put before it, which is the one that counts. */
  function Relabelled(e: Entry, mesh: string): Entry
  {
    e.(text := [Pair(MESH_ID, mesh)] + e.text)
  }

  lemma RelabelledFields(text: seq<string>, mesh: string)
    ensures FieldsOf([Pair(MESH_ID, mesh)] + text) == FieldsOf(text).(meshId := Some(mesh))
  {
    var front := [Pair(MESH_ID, mesh)];
    LookupPair(MESH_ID, mesh, NODE_ID);
    LookupPair(MESH_ID, mesh, MESH_ID);
    LookupPair(MESH_ID, mesh, FINGERPRINT);
    LookupPair(MESH_ID, mesh, GRPC_PORT);
    LookupPair(MESH_ID, mesh, PAIR_PORT);
    LookupConcat(front, text, NODE_ID);
    LookupConcat(front, text, MESH_ID);
    LookupConcat(front, text, FINGERPRINT);
    LookupConcat(front, text, GRPC_PORT);
    LookupConcat(front, text, PAIR_PORT);
  }

  lemma HeardRelabelled(cfg: Settings, e: Entry, mesh: string, t: Time)
    requires Heard(cfg, e, t).Some? && cfg.meshId == ANY_MESH && mesh != ""
    ensures Heard(cfg, Relabelled(e, mesh), t) == Some(Heard(cfg, e, t).value.(meshId := mesh))
  {
    RelabelledFields(e.text, mesh);
  }

  /** Two announcements that differ in nothing but the mesh: the events keep telling the first one. */
  lemma MeshChangeUnreported(cfg: Settings, e: Entry, mesh: string, t: Time) returns (s: State, s': State)
    requires cfg.meshId == ANY_MESH && Heard(cfg, e, t).Some? && mesh != "" && mesh != Heard(cfg, e, t).value.meshId
    ensures Exec(cfg, t, [Hear(Relabelled(e, mesh), t)]) == Some(s)
    ensures Exec(cfg, t, [Hear(Relabelled(e, mesh), t), Hear(e, t)]) == Some(s')
    ensures s.now == t && s' == Apply(cfg, s, Hear(e, t)) && ToldMesh(cfg, s)
    ensures var id, mirror := Heard(cfg, e, t).value.nodeId, Replay(s'.channel.generated);
            && id in mirror && mirror[id].meshId == mesh
            && id in s'.table && s'.table[id].meshId == Heard(cfg, e, t).value.meshId
  {
    HeardRelabelled(cfg, e, mesh, t);
    var p' := Heard(cfg, e, t).value;
    var p := p'.(meshId := mesh);
    s, s' := TwoHears(cfg, Relabelled(e, mesh), e, t);
    assert !PeerChanged(p, p');
    assert s'.channel.generated == s.channel.generated == [PeerEvent(Added, p)];
    ReplayOneEntry(p, p');
    OneEntry(cfg, p, p);
  }

  /** The exact condition with the mesh included: an announcement never makes the events lose the
      table exactly if it repeats no address and the browser is not a wildcard one. */
  lemma MeshToldExactly(cfg: Settings, e: Entry)
    requires Heard(cfg, e, 0).Some?
    ensures AlwaysToldMesh(cfg, e) <==> ListsOnce(e) && cfg.meshId != ANY_MESH
  {
    if cfg.meshId == ANY_MESH {
      var mesh := Heard(cfg, e, 0).value.meshId + "x";
      var s, s' := MeshChangeUnreported(cfg, e, mesh, 0);
      assert !ToldMesh(cfg, s');
    } else {
      RepeatsExactly(cfg, e);
      MeshToldSame(cfg, e);
    }
  }

  lemma MeshToldSame(cfg: Settings, e: Entry)
    requires cfg.meshId != ANY_MESH
    ensures AlwaysToldMesh(cfg, e) <==> AlwaysTold(cfg, e)
  {
    forall s ensures ToldMesh(cfg, s) <==> Told(cfg, s) {
      MeshIsTold(cfg, s);
    }
  }

  lemma {:induction false} TableAlwaysSound(cfg: Settings, start: Time, steps: seq<Step>)
    requires Exec(cfg, start, steps).Some?
    ensures TableSound(cfg, Exec(cfg, start, steps).value.table)
  {
    if steps != [] {
      var n := |steps| - 1;
      TableAlwaysSound(cfg, start, steps[..n]);
      var s := Exec(cfg, start, steps[..n]).value;
      TableSoundStep(cfg, s.table, steps[n]);
      GeneratedStep(cfg, s, steps[n]);
    }
  }

  // The events of one peer.

  function KindsOf(es: seq<PeerEvent>, id: string): seq<Kind>
  {
    if es == [] then []
    else
      var n := |es| - 1;
      KindsOf(es[..n], id) + if es[n].peer.nodeId == id then [es[n].kind] else []
  }

  /** (Added Updated* Expired)* with an optional open tail Added Updated*: an Added stands at the
      start and after each Expired, and nowhere else. */
  predicate Grammatical(ks: seq<Kind>)
  {
    forall i | 0 <= i < |ks| :: ks[i].Added? <==> (i == 0 || ks[i - 1].Expired?)
  }

  predicate Open(ks: seq<Kind>)
  {
    ks != [] && !ks[|ks| - 1].Expired?
  }

  ghost predicate Tells(es: seq<PeerEvent>, table: Table, id: string)
  {
    Grammatical(KindsOf(es, id)) && (id in table <==> Open(KindsOf(es, id)))
  }

  lemma KindsSnoc(es: seq<PeerEvent>, e: PeerEvent, id: string)
    ensures KindsOf(es + [e], id) == KindsOf(es, id) + if e.peer.nodeId == id then [e.kind] else []
  {
    assert (es + [e])[..|es|] == es;
  }

  lemma GrammarSnoc(ks: seq<Kind>, k: Kind)
    requires Grammatical(ks) && (k.Added? <==> !Open(ks))
    ensures Grammatical(ks + [k]) && (Open(ks + [k]) <==> !k.Expired?)
  {
    var all := ks + [k];
    forall i | 0 <= i < |all|
      ensures all[i].Added? <==> (i == 0 || all[i - 1].Expired?)
    {
      if i < |ks| {
        assert ks[i].Added? <==> (i == 0 || ks[i - 1].Expired?);
      } else {
        assert i == 0 ==> ks == [];
        assert all[i] == k;
      }
      if i > 0 {
        assert all[i - 1] == ks[i - 1];
      }
    }
  }

  lemma TellsHear(es: seq<PeerEvent>, table: Table, p: Peer, id: string)
    requires Tells(es, table, id)
    ensures Tells(es + EventsFor(table, p), table[p.nodeId := p], id)
  {
    var added := EventsFor(table, p);
    if added == [] {
      assert es + added == es;
    } else {
      assert added == [added[0]];
      KindsSnoc(es, added[0], id);
      if p.nodeId == id {
        GrammarSnoc(KindsOf(es, id), added[0].kind);
      } else {
        assert KindsOf(es, id) + [] == KindsOf(es, id);
      }
    }
  }

  lemma ExpiredSnoc(es: seq<PeerEvent>, table: Table, front: seq<string>, last: string)
    requires last in table && forall i | 0 <= i < |front| :: front[i] in table
    ensures es + ExpiredEvents(table, front + [last])
            == es + ExpiredEvents(table, front) + [PeerEvent(Expired, table[last])]
  {
  }

  lemma {:induction false} KindsOfExpiry(es: seq<PeerEvent>, table: Table, order: seq<string>, id: string)
    requires forall i | 0 <= i < |order| :: order[i] in table && table[order[i]].nodeId == order[i]
    requires Distinct(order)
    ensures KindsOf(es + ExpiredEvents(table, order), id) == KindsOf(es, id) + if id in order then [Expired] else []
  {
    if order == [] {
      assert es + ExpiredEvents(table, order) == es;
    } else {
      var n := |order| - 1;
      var front := order[..n];
      KindsOfExpiry(es, table, front, id);
      assert order == front + [order[n]];
      ExpiredSnoc(es, table, front, order[n]);
      KindsSnoc(es + ExpiredEvents(table, front), PeerEvent(Expired, table[order[n]]), id);
      assert id == order[n] ==> id !in front;
    }
  }

  lemma TellsSweep(cfg: Settings, es: seq<PeerEvent>, table: Table, instant: Time, order: seq<string>, id: string)
    requires TableSound(cfg, table) && Tells(es, table, id) && Enumerates(order, Silent(cfg, table, instant))
    ensures Tells(es + ExpiredEvents(table, order), table - Silent(cfg, table, instant), id)
  {
    KindsOfExpiry(es, table, order, id);
    if id in order {
      GrammarSnoc(KindsOf(es, id), Expired);
    } else {
      assert KindsOf(es, id) + [] == KindsOf(es, id);
    }
  }

  lemma TellsStep(cfg: Settings, s: State, step: Step, id: string)
    requires Enabled(cfg, s, step) && TableSound(cfg, s.table) && Tells(s.channel.generated, s.table, id)
    ensures Tells(Apply(cfg, s, step).channel.generated, Apply(cfg, s, step).table, id)
  {
    GeneratedStep(cfg, s, step);
    var es := s.channel.generated;
    match step
    case Hear(e, at) =>
      if Heard(cfg, e, at).Some? {
        TellsHear(es, s.table, Heard(cfg, e, at).value, id);
      } else {
        assert es + [] == es;
      }
    case Sweep(instant, order) => TellsSweep(cfg, es, s.table, instant, order, id);
    case _ => assert es + [] == es;
  }

  /** In every run the events of a peer follow the grammar, and the peer is in the table exactly
      when its last event is not an expiry. */
  lemma {:induction false} EventsFollowGrammar(cfg: Settings, start: Time, steps: seq<Step>, id: string)
    requires Exec(cfg, start, steps).Some?
    ensures var s := Exec(cfg, start, steps).value;
            && Grammatical(KindsOf(s.channel.generated, id))
            && (id in s.table <==> Open(KindsOf(s.channel.generated, id)))
  {
    if steps != [] {
      var n := |steps| - 1;
      EventsFollowGrammar(cfg, start, steps[..n], id);
      TableAlwaysSound(cfg, start, steps[..n]);
      TellsStep(cfg, Exec(cfg, start, steps[..n]).value, steps[n], id);
    }
  }

  // Staleness.

  ghost predicate Fresh(cfg: Settings, s: State)
  {
    && s.sweptAt <= s.now
    && forall id | id in s.table :: s.table[id].lastSeen <= s.now && s.sweptAt - s.table[id].lastSeen <= cfg.expireAfter
  }

  lemma FreshStep(cfg: Settings, s: State, step: Step)
    requires cfg.expireAfter >= 0 && Enabled(cfg, s, step) && Fresh(cfg, s)
    ensures Fresh(cfg, Apply(cfg, s, step))
  {
    if step.Hear? && Heard(cfg, step.entry, step.at).Some? {
      HeardSays(cfg, step.entry, step.at);
    }
  }

  lemma {:induction false} AlwaysFresh(cfg: Settings, start: Time, steps: seq<Step>)
    requires cfg.expireAfter >= 0 && Exec(cfg, start, steps).Some?
    ensures Fresh(cfg, Exec(cfg, start, steps).value)
  {
    if steps != [] {
      var n := |steps| - 1;
      AlwaysFresh(cfg, start, steps[..n]);
      FreshStep(cfg, Exec(cfg, start, steps[..n]).value, steps[n]);
    }
  }

  /** While sweeps keep up with their period of a third of the expiry time, no entry is older than
      one and a third of it; and a sweep takes away exactly the entries silent for longer than the
      expiry time. */
  lemma StalenessIsBounded(cfg: Settings, start: Time, steps: seq<Step>, s: State, id: string)
    requires cfg.expireAfter > 0 && Exec(cfg, start, steps) == Some(s) && id in s.table
    ensures s.now - s.sweptAt <= cfg.expireAfter / 3
            ==> s.now - s.table[id].lastSeen <= cfg.expireAfter + cfg.expireAfter / 3
    ensures forall instant, order | Enabled(cfg, s, Sweep(instant, order)) ::
              && (id !in Apply(cfg, s, Sweep(instant, order)).table
                  <==> instant - s.table[id].lastSeen > cfg.expireAfter)
              && (id !in Apply(cfg, s, Sweep(instant, order)).table ==> s.now - s.table[id].lastSeen > cfg.expireAfter)
  {
    AlwaysFresh(cfg, start, steps);
  }

  /** What a sweep reports, in every reachable state: each entry it takes away, as it stood in the
      table, once and nothing else. */
  lemma SweepReports(cfg: Settings, start: Time, steps: seq<Step>, s: State, instant: Time, order: seq<string>)
    requires Exec(cfg, start, steps) == Some(s) && Enabled(cfg, s, Sweep(instant, order))
    ensures var es := EventsOf(cfg, s.table, Sweep(instant, order));
            var gone := s.table.Keys - TableAfter(cfg, s.table, Sweep(instant, order)).Keys;
            && (forall id | id in gone :: PeerEvent(Expired, s.table[id]) in es)
            && (forall e | e in es :: e.kind == Expired && e.peer.nodeId in gone && e.peer == s.table[e.peer.nodeId])
            && (forall i, j | 0 <= i < j < |es| :: es[i].peer.nodeId != es[j].peer.nodeId)
  {
    TableAlwaysSound(cfg, start, steps);
    var es := EventsOf(cfg, s.table, Sweep(instant, order));
    assert es == ExpiredEvents(s.table, order);
    assert s.table.Keys - TableAfter(cfg, s.table, Sweep(instant, order)).Keys == Silent(cfg, s.table, instant);
    forall id | id in Silent(cfg, s.table, instant) ensures PeerEvent(Expired, s.table[id]) in es {
      var i :| 0 <= i < |order| && order[i] == id;
      assert es[i] == PeerEvent(Expired, s.table[id]);
    }
  }

  // The channel.

  /** `kept` picks strictly increasing positions of `all`. */
  ghost predicate PickedAt(part: seq<PeerEvent>, all: seq<PeerEvent>, at: seq<nat>)
  {
    && |at| == |part|
    && (forall i | 0 <= i < |part| :: at[i] < |all| && all[at[i]] == part[i])
    && forall i, j | 0 <= i < j < |at| :: at[i] < at[j]
  }

  ghost predicate Subsequence(part: seq<PeerEvent>, all: seq<PeerEvent>)
  {
    exists at: seq<nat> :: PickedAt(part, all, at)
  }

  ghost predicate ChannelSound(ch: Channel, capacity: nat)
  {
    && Subsequence(ch.delivered + ch.buffer, ch.generated)
    && |ch.generated| == |ch.delivered| + |ch.buffer| + ch.dropped
    && |ch.buffer| <= capacity
  }

  lemma EmitSound(ch: Channel, capacity: nat, e: PeerEvent)
    requires ChannelSound(ch, capacity)
    ensures ChannelSound(Emit(ch, capacity, e), capacity)
  {
    var part, all := ch.delivered + ch.buffer, ch.generated;
    var at: seq<nat> :| PickedAt(part, all, at);
    var ch' := Emit(ch, capacity, e);
    if |ch.buffer| < capacity {
      assert ch'.delivered + ch'.buffer == part + [e];
      assert PickedAt(part + [e], all + [e], at + [|all|]);
    } else {
      assert PickedAt(part, all + [e], at);
    }
  }

  lemma {:induction false} EmitAllSound(ch: Channel, capacity: nat, es: seq<PeerEvent>)
    requires ChannelSound(ch, capacity)
    ensures ChannelSound(EmitAll(ch, capacity, es), capacity)
  {
    if es != [] {
      var n := |es| - 1;
      EmitAllSound(ch, capacity, es[..n]);
      EmitSound(EmitAll(ch, capacity, es[..n]), capacity, es[n]);
    }
  }

  /** An event is dropped only for want of room. */
  lemma {:induction false} NothingDroppedWithRoom(ch: Channel, capacity: nat, es: seq<PeerEvent>)
    requires |ch.buffer| + |es| <= capacity
    ensures EmitAll(ch, capacity, es) == ch.(buffer := ch.buffer + es, generated := ch.generated + es)
  {
    if es == [] {
      assert ch.buffer + es == ch.buffer && ch.generated + es == ch.generated;
    } else {
      var n := |es| - 1;
      NothingDroppedWithRoom(ch, capacity, es[..n]);
      assert es == es[..n] + [es[n]];
      assert ch.buffer + es == ch.buffer + es[..n] + [es[n]] && ch.generated + es == ch.generated + es[..n] + [es[n]];
    }
  }

  /** What a full channel does: the oldest events stay, in order, and the newest are the ones dropped. */
  lemma {:induction false} OldestAreKept(ch: Channel, capacity: nat, es: seq<PeerEvent>)
    requires |ch.buffer| <= capacity
    ensures var room := capacity - |ch.buffer|;
            var k := if |es| <= room then |es| else room;
            EmitAll(ch, capacity, es)
            == ch.(buffer := ch.buffer + es[..k], generated := ch.generated + es, dropped := ch.dropped + |es| - k)
  {
    if es == [] {
      assert ch.buffer + es[..0] == ch.buffer && ch.generated + es == ch.generated;
    } else {
      var n := |es| - 1;
      var room := capacity - |ch.buffer|;
      OldestAreKept(ch, capacity, es[..n]);
      assert ch.generated + es == ch.generated + es[..n] + [es[n]] by {
        assert es == es[..n] + [es[n]];
      }
      if n < room {
        assert es[..n][..n] == es[..n] && es[..n + 1] == es[..n] + [es[n]];
        assert ch.buffer + es[..n + 1] == ch.buffer + es[..n] + [es[n]];
      } else {
        assert es[..n][..room] == es[..room];
      }
    }
  }

  /** A consumer gets the oldest event of the buffer, and nothing if there is none. */
  lemma OldestIsTaken(ch: Channel)
    ensures ch.buffer == [] ==> Receive(ch) == ch
    ensures ch.buffer != [] ==>
              && Receive(ch).delivered == ch.delivered + [ch.buffer[0]]
              && [ch.buffer[0]] + Receive(ch).buffer == ch.buffer
              && Receive(ch).generated == ch.generated && Receive(ch).dropped == ch.dropped
  {
  }

  lemma ReceiveSound(ch: Channel, capacity: nat)
    requires ChannelSound(ch, capacity)
    ensures ChannelSound(Receive(ch), capacity)
  {
    var ch' := Receive(ch);
    assert ch'.delivered + ch'.buffer == ch.delivered + ch.buffer;
  }

  /** Consumers see an ordered part of what was generated, nothing is counted twice, and the buffer
      keeps its bound. */
  lemma {:induction false} ChannelAlwaysSound(cfg: Settings, start: Time, steps: seq<Step>)
    requires Exec(cfg, start, steps).Some?
    ensures var ch := Exec(cfg, start, steps).value.channel;
            && Subsequence(ch.delivered + ch.buffer, ch.generated)
            && |ch.generated| == |ch.delivered| + |ch.buffer| + ch.dropped
            && |ch.buffer| <= cfg.eventBuffer
  {
    if steps == [] {
      var none: seq<nat> := [];
      assert PickedAt([], [], none);
    } else {
      var n := |steps| - 1;
      ChannelAlwaysSound(cfg, start, steps[..n]);
      var s := Exec(cfg, start, steps[..n]).value;
      EmitAllSound(s.channel, cfg.eventBuffer, EventsOf(cfg, s.table, steps[n]));
      ReceiveSound(s.channel, cfg.eventBuffer);
    }
  }

  /** The steps that are not reads of the channel. */
  function Inputs(steps: seq<Step>): seq<Step>
  {
    if steps == [] then []
    else
      var n := |steps| - 1;
      Inputs(steps[..n]) + if steps[n].Take? then [] else [steps[n]]
  }

  /** What is left of a run when the channel is forgotten. */
  ghost function Pure(cfg: Settings, inputs: seq<Step>): (Table, seq<PeerEvent>)
  {
    if inputs == [] then (map[], [])
    else
      var n := |inputs| - 1;
      var (table, events) := Pure(cfg, inputs[..n]);
      (TableAfter(cfg, table, inputs[n]), events + EventsOf(cfg, table, inputs[n]))
  }

  lemma {:induction false} ChannelDoesNotMatter(cfg: Settings, start: Time, steps: seq<Step>)
    requires Exec(cfg, start, steps).Some?
    ensures var s := Exec(cfg, start, steps).value;
            (s.table, s.channel.generated) == Pure(cfg.(eventBuffer := 0), Inputs(steps))
  {
    if steps != [] {
      var n := |steps| - 1;
      var step := steps[n];
      ChannelDoesNotMatter(cfg, start, steps[..n]);
      var s := Exec(cfg, start, steps[..n]).value;
      GeneratedStep(cfg, s, step);
      if step.Take? {
        assert Inputs(steps) == Inputs(steps[..n]);
        assert s.channel.generated + [] == s.channel.generated;
      } else {
        assert Inputs(steps)[..|Inputs(steps)| - 1] == Inputs(steps[..n]);
        BufferSizeUnused(cfg, s.table, step);
      }
    }
  }

  lemma BufferSizeUnused(cfg: Settings, table: Table, step: Step)
    ensures TableAfter(cfg, table, step) == TableAfter(cfg.(eventBuffer := 0), table, step)
    ensures EventsOf(cfg, table, step) == EventsOf(cfg.(eventBuffer := 0), table, step)
  {
  }

  /** Two runs on the same announcements and sweeps have the same table and generate the same
      events, whatever the buffer size, whenever consumers read, and whatever gets dropped. */
  lemma DropsNeverTouchTheTable(cfg: Settings, buffer: nat, start: Time, steps: seq<Step>, s: State, steps': seq<Step>,
                                s': State)
    requires Exec(cfg, start, steps) == Some(s) && Exec(cfg.(eventBuffer := buffer), start, steps') == Some(s')
    requires Inputs(steps) == Inputs(steps')
    ensures s.table == s'.table && s.channel.generated == s'.channel.generated
  {
    ChannelDoesNotMatter(cfg, start, steps);
    ChannelDoesNotMatter(cfg.(eventBuffer := buffer), start, steps');
  }
}
