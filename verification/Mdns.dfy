/** The MDNS object: the peer map and the bounded event channel, updated in place. */
module MdnsObject {
  import opened Terms
  import opened Txt
  import opened PeerTable
  import Hosts

  /** The two loops of the source: note the addresses of `a`, then look for one of `b` not among them. */
  method ComparePeers(a: Peer, b: Peer) returns (changed: bool)
    ensures changed == PeerChanged(a, b)
  {
    if a.grpcPort != b.grpcPort || a.pairPort != b.pairPort {
      return true;
    }
    if a.fingerprint != b.fingerprint || a.hostname != b.hostname {
      return true;
    }
    if |a.addrs| != |b.addrs| {
      return true;
    }
    var seen: map<string, bool> := map[];
    for i := 0 to |a.addrs|
      invariant forall ip :: ip in seen <==> ip in a.addrs[..i]
    {
      assert a.addrs[..i + 1] == a.addrs[..i] + [a.addrs[i]];
      seen := seen[a.addrs[i] := true];
    }
    assert a.addrs[..|a.addrs|] == a.addrs;
    for i := 0 to |b.addrs|
      invariant forall k | 0 <= k < i :: b.addrs[k] in a.addrs
    {
      if b.addrs[i] !in seen {
        return true;
      }
    }
    return false;
  }

  lemma {:induction false} EmitAllSplit(ch: Channel, capacity: nat, es: seq<PeerEvent>, i: nat)
    requires i < |es|
    ensures EmitAll(ch, capacity, es[..i + 1]) == Emit(EmitAll(ch, capacity, es[..i]), capacity, es[i])
  {
    assert es[..i + 1][..i] == es[..i];
  }

  lemma EnumeratesSnoc(order: seq<string>, s: set<string>, x: string)
    requires Enumerates(order, s) && x !in s
    ensures Enumerates(order + [x], s + {x})
  {
  }

  /** The peers named in `order` were taken out of `table` and listed. */
  ghost predicate TakenOut(table: Table, order: seq<string>, live: Table, expired: seq<Peer>)
  {
    && (forall i | 0 <= i < |order| :: order[i] in table)
    && |expired| == |order| && (forall i | 0 <= i < |order| :: expired[i] == table[order[i]])
    && live == table - (set id | id in order)
  }

  lemma TakeOutOne(table: Table, order: seq<string>, live: Table, expired: seq<Peer>, id: string)
    requires TakenOut(table, order, live, expired) && id in table
    ensures TakenOut(table, order + [id], live - {id}, expired + [table[id]])
  {
    assert (set x | x in order + [id]) == (set x | x in order) + {id};
  }

  /** A walk of the table that still has `rest` ahead of it. */
  ghost predicate Walked(table: Table, silent: set<string>, rest: set<string>, order: seq<string>, live: Table,
                         expired: seq<Peer>)
  {
    Enumerates(order, silent - rest) && TakenOut(table, order, live, expired)
  }

  lemma WalkStarts(table: Table, silent: set<string>)
    requires silent <= table.Keys
    ensures Walked(table, silent, table.Keys, [], table, [])
  {
    assert silent - table.Keys == {};
  }

  lemma WalkTakes(table: Table, silent: set<string>, rest: set<string>, order: seq<string>, live: Table,
                  expired: seq<Peer>, id: string)
    requires Walked(table, silent, rest, order, live, expired) && id in rest && id in silent && id in table
    ensures Walked(table, silent, rest - {id}, order + [id], live - {id}, expired + [table[id]])
  {
    EnumeratesSnoc(order, silent - rest, id);
    assert silent - (rest - {id}) == silent - rest + {id};
    TakeOutOne(table, order, live, expired, id);
  }

  lemma WalkEnds(table: Table, silent: set<string>, order: seq<string>, live: Table, expired: seq<Peer>)
    requires Walked(table, silent, {}, order, live, expired)
    ensures Enumerates(order, silent) && live == table - silent
  {
    assert silent - {} == silent;
    assert (set id | id in order) == silent;
  }

  /** Walks the map in some order, deletes the silent peers and remembers them; `order` is the walk. */
  method RemoveSilent(cfg: Settings, table: Table, now: Time)
    returns (live: Table, expired: seq<Peer>, ghost order: seq<string>)
    ensures Enumerates(order, Silent(cfg, table, now))
    ensures TakenOut(table, order, live, expired)
    ensures live == table - Silent(cfg, table, now)
  {
    ghost var silent := Silent(cfg, table, now);
    var rest := table.Keys;
    live, expired, order := table, [], [];
    WalkStarts(table, silent);
    while rest != {}
      invariant rest <= table.Keys
      invariant Walked(table, silent, rest, order, live, expired)
      decreases |rest|
    {
      var id :| id in rest;
      if now - table[id].lastSeen > cfg.expireAfter {
        WalkTakes(table, silent, rest, order, live, expired, id);
        live, expired, order := live - {id}, expired + [table[id]], order + [id];
      } else {
        assert silent - (rest - {id}) == silent - rest;
      }
      rest := rest - {id};
    }
    WalkEnds(table, silent, order, live, expired);
  }

  class Mdns {
    const cfg: Settings
    var peers: Table
    var events: seq<PeerEvent>
    ghost var generated: seq<PeerEvent>
    ghost var delivered: seq<PeerEvent>
    ghost var dropped: nat

    ghost function Sent(): Channel
      reads this
    {
      Channel(events, generated, delivered, dropped)
    }

    constructor (cfg: Settings)
      ensures this.cfg == cfg && peers == map[] && Sent() == Channel([], [], [], 0)
    {
      this.cfg := cfg;
      peers, events := map[], [];
      generated, delivered, dropped := [], [], 0;
    }

    /** Never blocks: a full channel drops the event. */
    method Emit(e: PeerEvent)
      modifies this`events, this`generated, this`dropped
      ensures Sent() == PeerTable.Emit(old(Sent()), cfg.eventBuffer, e)
    {
      if |events| < cfg.eventBuffer {
        events := events + [e];
      } else {
        dropped := dropped + 1;
      }
      generated := generated + [e];
    }

    method Take() returns (e: Option<PeerEvent>)
      modifies this`events, this`delivered
      ensures Sent() == Receive(old(Sent()))
      ensures e == if old(events) == [] then None else Some(old(events)[0])
    {
      if events == [] {
        return None;
      }
      e := Some(events[0]);
      delivered := delivered + [events[0]];
      events := events[1..];
    }

    /** The map write comes first; the event depends on the entry it replaced. */
    method HandleEntry(e: Entry, now: Time)
      modifies this
      ensures peers == TableAfter(cfg, old(peers), Hear(e, now))
      ensures Sent() == EmitAll(old(Sent()), cfg.eventBuffer, EventsOf(cfg, old(peers), Hear(e, now)))
    {
      var parsed := ParseTxtRecord(e.text);
      if parsed.Err? {
        return;
      }
      var p := parsed.value;
      if p.nodeId == cfg.nodeId {
        return;
      }
      if cfg.meshId != ANY_MESH && p.meshId != cfg.meshId {
        return;
      }
      var host := Hosts.NormalizeHost(e.hostName);
      p := p.(grpcPort := if e.port > 0 then e.port else p.grpcPort, hostname := host,
              addrs := e.addr4 + e.addr6, lastSeen := now);
      assert Heard(cfg, e, now) == Some(p);
      var known := p.nodeId in peers;
      var before := if known then peers[p.nodeId] else p;
      peers := peers[p.nodeId := p];
      ghost var all := EventsOf(cfg, old(peers), Hear(e, now));
      if !known {
        assert all == [PeerEvent(Added, p)] && all[..0] == [];
        Emit(PeerEvent(Added, p));
      } else {
        var changed := ComparePeers(before, p);
        if changed {
          assert all == [PeerEvent(Updated, p)] && all[..0] == [];
          Emit(PeerEvent(Updated, p));
        }
      }
    }

    method Expire(now: Time) returns (ghost order: seq<string>)
      modifies this
      ensures Enumerates(order, Silent(cfg, old(peers), now))
      ensures peers == TableAfter(cfg, old(peers), Sweep(now, order))
      ensures Sent() == EmitAll(old(Sent()), cfg.eventBuffer, EventsOf(cfg, old(peers), Sweep(now, order)))
    {
      var expired: seq<Peer>;
      peers, expired, order := RemoveSilent(cfg, peers, now);
      ghost var all := ExpiredEvents(old(peers), order);
      ghost var table := peers;
      for i := 0 to |expired|
        invariant peers == table
        invariant Sent() == EmitAll(old(Sent()), cfg.eventBuffer, all[..i])
      {
        EmitAllSplit(old(Sent()), cfg.eventBuffer, all, i);
        Emit(PeerEvent(Expired, expired[i]));
      }
      assert all[..|expired|] == all;
    }
  }
}
