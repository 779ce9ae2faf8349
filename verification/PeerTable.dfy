/** The mDNS peer table and its event stream. */
module PeerTable {
  import opened Terms
  import opened Txt
  import Hosts

  datatype Kind = Added | Updated | Expired

  datatype PeerEvent = PeerEvent(kind: Kind, peer: Peer)

  /** One browse result. */
  datatype Entry = Entry(text: seq<string>, hostName: string, port: int, addr4: seq<string>, addr6: seq<string>)

  const ANY_MESH := "*"

  datatype Settings = Settings(nodeId: string, meshId: string, expireAfter: Time, eventBuffer: nat)

  datatype ConfigError = NoNodeId | NoMeshId | WildcardAdvertised | BadPort

  function NewMdns(ad: Advertisement, browseOnly: bool, expireAfter: Time, eventBuffer: int)
    : (r: Result<Settings, ConfigError>)
    ensures r.Ok?
            <==> ad.nodeId != "" && ad.meshId != "" && 1 <= ad.grpcPort <= 65535
                 && (browseOnly || ad.meshId != ANY_MESH)
    ensures r == Err(NoNodeId) <==> ad.nodeId == ""
    ensures r == Err(NoMeshId) <==> ad.nodeId != "" && ad.meshId == ""
    ensures r == Err(WildcardAdvertised) <==> ad.nodeId != "" && ad.meshId == "*" && !browseOnly
    ensures r.Ok? ==> r.value.nodeId == ad.nodeId && r.value.meshId == ad.meshId
    ensures r.Ok? && expireAfter > 0 ==> r.value.expireAfter == expireAfter
    ensures r.Ok? && expireAfter <= 0 ==> r.value.expireAfter == 90 * SECOND
    ensures r.Ok? && eventBuffer > 0 ==> r.value.eventBuffer == eventBuffer
    ensures r.Ok? && eventBuffer <= 0 ==> r.value.eventBuffer == 64
  {
    if ad.nodeId == "" then Err(NoNodeId)
    else if ad.meshId == "" then Err(NoMeshId)
    else if ad.meshId == ANY_MESH && !browseOnly then Err(WildcardAdvertised)
    else if ad.grpcPort < 1 || ad.grpcPort > MAX_PORT then Err(BadPort)
    else Ok(Settings(ad.nodeId, ad.meshId,
                     if expireAfter <= 0 then 90 * SECOND else expireAfter,
                     if eventBuffer <= 0 then 64 else eventBuffer))
  }

  type Table = map<string, Peer>

  /** The peer that an entry describes, or nothing when the entry is to be ignored. */
  function Heard(cfg: Settings, e: Entry, now: Time): Option<Peer>
  {
    match ParseTxt(e.text)
    case Err(_) => None
    case Ok(p) =>
      if p.nodeId == cfg.nodeId then None
      else if cfg.meshId != ANY_MESH && p.meshId != cfg.meshId then None
      else Some(p.(grpcPort := if e.port > 0 then e.port else p.grpcPort,
                   hostname := Hosts.Normalized(e.hostName),
                   addrs := e.addr4 + e.addr6,
                   lastSeen := now))
  }

  predicate PeerChanged(a: Peer, b: Peer)
  {
    || a.grpcPort != b.grpcPort || a.pairPort != b.pairPort
    || a.fingerprint != b.fingerprint || a.hostname != b.hostname
    || |a.addrs| != |b.addrs|
    || exists ip | ip in b.addrs :: ip !in a.addrs
  }

  /** The event for a peer just heard of, given the table before. */
  function EventsFor(table: Table, p: Peer): seq<PeerEvent>
  {
    if p.nodeId !in table then [PeerEvent(Added, p)]
    else if PeerChanged(table[p.nodeId], p) then [PeerEvent(Updated, p)]
    else []
  }

  function Silent(cfg: Settings, table: Table, now: Time): set<string>
  {
    set id | id in table && now - table[id].lastSeen > cfg.expireAfter
  }

  function ExpiredEvents(table: Table, order: seq<string>): seq<PeerEvent>
    requires forall i | 0 <= i < |order| :: order[i] in table
  {
    seq(|order|, i requires 0 <= i < |order| => PeerEvent(Expired, table[order[i]]))
  }

  // The event channel.

  /** `generated`, `delivered` and `dropped` record what happened to every event so far. */
  datatype Channel = Channel(buffer: seq<PeerEvent>, generated: seq<PeerEvent>, delivered: seq<PeerEvent>, dropped: nat)

  function Emit(ch: Channel, capacity: nat, e: PeerEvent): Channel
  {
    if |ch.buffer| < capacity
    then ch.(buffer := ch.buffer + [e], generated := ch.generated + [e])
    else ch.(generated := ch.generated + [e], dropped := ch.dropped + 1)
  }

  function EmitAll(ch: Channel, capacity: nat, es: seq<PeerEvent>): Channel
  {
    if es == [] then ch else Emit(EmitAll(ch, capacity, es[..|es| - 1]), capacity, es[|es| - 1])
  }

  function Receive(ch: Channel): Channel
  {
    if ch.buffer == [] then ch
    else ch.(buffer := ch.buffer[1..], delivered := ch.delivered + [ch.buffer[0]])
  }

  // The timed system.

  datatype State = State(table: Table, channel: Channel, now: Time, sweptAt: Time)

  datatype Step =
    | Advance(to: Time)
    | Hear(entry: Entry, at: Time)
    | Sweep(instant: Time, order: seq<string>)
    | Take

  function Initial(now: Time): State
  {
    State(map[], Channel([], [], [], 0), now, now)
  }

  /** A sweep uses the instant its tick was stamped with, which may lie behind the clock. */
  ghost predicate Enabled(cfg: Settings, s: State, step: Step)
  {
    match step
    case Advance(to) => to >= s.now
    case Hear(_, at) => at >= s.now
    case Sweep(instant, order) => s.sweptAt <= instant <= s.now && Enumerates(order, Silent(cfg, s.table, instant))
    case Take => true
  }

  ghost function TableAfter(cfg: Settings, table: Table, step: Step): Table
  {
    match step
    case Hear(e, at) =>
      (match Heard(cfg, e, at)
       case Some(p) => table[p.nodeId := p]
       case None => table)
    case Sweep(instant, _) => table - Silent(cfg, table, instant)
    case _ => table
  }

  ghost function EventsOf(cfg: Settings, table: Table, step: Step): seq<PeerEvent>
  {
    match step
    case Hear(e, at) =>
      (match Heard(cfg, e, at)
       case Some(p) => EventsFor(table, p)
       case None => [])
    case Sweep(instant, order) =>
      if forall i | 0 <= i < |order| :: order[i] in table then ExpiredEvents(table, order) else []
    case _ => []
  }

  ghost function Apply(cfg: Settings, s: State, step: Step): State
  {
    var table := TableAfter(cfg, s.table, step);
    var channel := EmitAll(s.channel, cfg.eventBuffer, EventsOf(cfg, s.table, step));
    match step
    case Advance(to) => s.(now := to)
    case Hear(_, at) => State(table, channel, at, s.sweptAt)
    case Sweep(instant, _) => State(table, channel, s.now, instant)
    case Take => s.(channel := Receive(s.channel))
  }

  ghost function Exec(cfg: Settings, start: Time, steps: seq<Step>): Option<State>
  {
    if steps == [] then Some(Initial(start))
    else
      var n := |steps| - 1;
      match Exec(cfg, start, steps[..n])
      case None => None
      case Some(s) => if Enabled(cfg, s, steps[n]) then Some(Apply(cfg, s, steps[n])) else None
  }
}
