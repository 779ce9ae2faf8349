/** DNS-SD TXT records (section 6.4 of RFC 6763). */
module Txt {
  import opened Terms
  import opened Strings
  import opened Decimal

  const NODE_ID := "node_id"
  const MESH_ID := "mesh_id"
  const GRPC_PORT := "grpc_port"
  const PAIR_PORT := "pair_port"
  const FINGERPRINT := "fingerprint"

  const MAX_PORT := 65535

  datatype Error = MissingNodeId | MissingMeshId | MissingGrpcPort | BadGrpcPort

  datatype Advertisement = Advertisement(nodeId: string, meshId: string, grpcPort: int, pairPort: int,
                                         fingerprint: string)

  /** Addresses are kept in their printed form, which is how they are compared. */
  datatype Peer = Peer(
    nodeId: string,
    meshId: string,
    fingerprint: string,
    hostname: string,
    addrs: seq<string>,
    grpcPort: int,
    pairPort: int,
    lastSeen: Time)

  function Pair(key: string, value: string): string
  {
    key + "=" + value
  }

  function TxtOf(a: Advertisement): seq<string>
  {
    [Pair(NODE_ID, a.nodeId), Pair(MESH_ID, a.meshId), Pair(GRPC_PORT, Itoa(a.grpcPort))]
    + (if a.pairPort > 0 then [Pair(PAIR_PORT, Itoa(a.pairPort))] else [])
    + (if a.fingerprint != "" then [Pair(FINGERPRINT, a.fingerprint)] else [])
  }

  /** The value of the first string for `key`, if any. */
  function Lookup(txt: seq<string>, key: string): Option<string>
  {
    if txt == [] then None
    else
      var (k, v) := Cut(txt[0], "=");
      if v.Some? && k == key then v else Lookup(txt[1..], key)
  }

  /** The five attributes that are defined. */
  datatype Fields = Fields(
    nodeId: Option<string>,
    meshId: Option<string>,
    fingerprint: Option<string>,
    grpcPort: Option<string>,
    pairPort: Option<string>)

  function FieldsOf(txt: seq<string>): Fields
  {
    Fields(Lookup(txt, NODE_ID), Lookup(txt, MESH_ID), Lookup(txt, FINGERPRINT), Lookup(txt, GRPC_PORT),
           Lookup(txt, PAIR_PORT))
  }

  function OrEmpty(v: Option<string>): string
  {
    if v.Some? then v.value else ""
  }

  function ParsePort(s: string): Option<int>
  {
    var n := Atoi(s);
    if n.Some? && 1 <= n.value <= MAX_PORT then n else None
  }

  function FromFields(f: Fields): Result<Peer, Error>
  {
    if OrEmpty(f.nodeId) == "" then Err(MissingNodeId)
    else if OrEmpty(f.meshId) == "" then Err(MissingMeshId)
    else if OrEmpty(f.grpcPort) == "" then Err(MissingGrpcPort)
    else
      var port := ParsePort(f.grpcPort.value);
      if port.None? then Err(BadGrpcPort)
      else if OrEmpty(f.pairPort) == "" then
        Ok(Peer(f.nodeId.value, f.meshId.value, OrEmpty(f.fingerprint), "", [], port.value, 0, 0))
      else
        var pair := ParsePort(f.pairPort.value);
        if pair.None? then Err(BadGrpcPort)
        else Ok(Peer(f.nodeId.value, f.meshId.value, OrEmpty(f.fingerprint), "", [], port.value, pair.value, 0))
  }

  function ParseTxt(txt: seq<string>): Result<Peer, Error>
  {
    FromFields(FieldsOf(txt))
  }

  // The loops of the source.

  /** The record parses back to every field, exactly for advertisable values. */
  method RenderTxt(a: Advertisement) returns (txt: seq<string>)
    ensures txt == TxtOf(a)
    ensures ParseTxt(txt) == Ok(PeerOf(a)) <==> Advertisable(a)
    ensures |txt| == 3 + (if a.pairPort > 0 then 1 else 0) + (if a.fingerprint != "" then 1 else 0)
    ensures txt[..3] == ["node_id=" + a.nodeId, "mesh_id=" + a.meshId, "grpc_port=" + Itoa(a.grpcPort)]
    ensures a.pairPort > 0 ==> "pair_port=" + Itoa(a.pairPort) in txt
    ensures a.fingerprint != "" ==> "fingerprint=" + a.fingerprint in txt
  {
    txt := [Pair(NODE_ID, a.nodeId), Pair(MESH_ID, a.meshId), Pair(GRPC_PORT, Itoa(a.grpcPort))];
    if a.pairPort > 0 {
      txt := txt + [Pair(PAIR_PORT, Itoa(a.pairPort))];
    }
    if a.fingerprint != "" {
      txt := txt + [Pair(FINGERPRINT, a.fingerprint)];
    }
    TxtRoundTrip(a);
    TxtText(a);
  }

  /** The strings of a record: three always, the others only when there is something to say. */
  lemma TxtText(a: Advertisement)
    ensures |TxtOf(a)| == 3 + (if a.pairPort > 0 then 1 else 0) + (if a.fingerprint != "" then 1 else 0)
    ensures TxtOf(a)[..3] == ["node_id=" + a.nodeId, "mesh_id=" + a.meshId, "grpc_port=" + Itoa(a.grpcPort)]
    ensures a.pairPort > 0 ==> "pair_port=" + Itoa(a.pairPort) in TxtOf(a)
    ensures a.fingerprint != "" ==> "fingerprint=" + a.fingerprint in TxtOf(a)
  {
    var txt := TxtOf(a);
    assert Pair(NODE_ID, a.nodeId) == "node_id=" + a.nodeId;
    assert Pair(MESH_ID, a.meshId) == "mesh_id=" + a.meshId;
    assert Pair(GRPC_PORT, Itoa(a.grpcPort)) == "grpc_port=" + Itoa(a.grpcPort);
    assert Pair(PAIR_PORT, Itoa(a.pairPort)) == "pair_port=" + Itoa(a.pairPort);
    assert Pair(FINGERPRINT, a.fingerprint) == "fingerprint=" + a.fingerprint;
    assert a.pairPort > 0 ==> txt[3] == Pair(PAIR_PORT, Itoa(a.pairPort));
    assert a.fingerprint != "" ==> txt[|txt| - 1] == Pair(FINGERPRINT, a.fingerprint);
  }

  /** Fills a map where the first occurrence of a key wins. */
  method CollectPairs(txt: seq<string>) returns (kv: map<string, string>)
    ensures forall k :: Lookup(txt, k) == if k in kv then Some(kv[k]) else None
  {
    kv := map[];
    for i := 0 to |txt|
      invariant forall k :: Lookup(txt[..i], k) == if k in kv then Some(kv[k]) else None
    {
      var (k, v) := Cut(txt[i], "=");
      forall key ensures Lookup(txt[..i + 1], key) == FirstOf(Lookup(txt[..i], key), if k == key then v else None) {
        LookupSnoc(txt, i, key);
      }
      if v.Some? && k !in kv {
        kv := kv[k := v.value];
      }
    }
    assert txt[..|txt|] == txt;
  }

  method ParseTxtRecord(txt: seq<string>) returns (r: Result<Peer, Error>)
    ensures r == ParseTxt(txt)
  {
    var kv := CollectPairs(txt);
    if NODE_ID !in kv || kv[NODE_ID] == "" {
      return Err(MissingNodeId);
    }
    if MESH_ID !in kv || kv[MESH_ID] == "" {
      return Err(MissingMeshId);
    }
    if GRPC_PORT !in kv || kv[GRPC_PORT] == "" {
      return Err(MissingGrpcPort);
    }
    var port := Atoi(kv[GRPC_PORT]);
    if port.None? || port.value < 1 || port.value > MAX_PORT {
      return Err(BadGrpcPort);
    }
    var fingerprint := if FINGERPRINT in kv then kv[FINGERPRINT] else "";
    var p := Peer(kv[NODE_ID], kv[MESH_ID], fingerprint, "", [], port.value, 0, 0);
    if PAIR_PORT in kv && kv[PAIR_PORT] != "" {
      var pair := Atoi(kv[PAIR_PORT]);
      if pair.None? || pair.value < 1 || pair.value > MAX_PORT {
        return Err(BadGrpcPort);
      }
      p := p.(pairPort := pair.value);
    }
    r := Ok(p);
  }

  // Round trip.

  function FirstOf(a: Option<string>, b: Option<string>): Option<string>
  {
    if a.Some? then a else b
  }

  lemma {:induction false} LookupConcat(a: seq<string>, b: seq<string>, key: string)
    ensures Lookup(a + b, key) == FirstOf(Lookup(a, key), Lookup(b, key))
  {
    if a == [] {
      assert a + b == b;
    } else {
      LookupConcat(a[1..], b, key);
      assert (a + b)[1..] == a[1..] + b;
    }
  }

  lemma LookupSnoc(txt: seq<string>, i: nat, key: string)
    requires i < |txt|
    ensures var (k, v) := Cut(txt[i], "=");
            Lookup(txt[..i + 1], key) == FirstOf(Lookup(txt[..i], key), if k == key then v else None)
  {
    assert txt[..i + 1] == txt[..i] + [txt[i]];
    LookupConcat(txt[..i], [txt[i]], key);
    assert [txt[i]][1..] == [];
  }

  /** A rendered pair is found under its own key and no other, whatever the value holds. */
  lemma LookupPair(key: string, value: string, other: string)
    requires '=' !in key
    ensures Lookup([Pair(key, value)], other) == if other == key then Some(value) else None
  {
    CutFront(key, "=", value);
    assert [Pair(key, value)][1..] == [];
  }

  lemma LookupFive(a: seq<string>, b: seq<string>, c: seq<string>, d: seq<string>, e: seq<string>, key: string)
    ensures Lookup(a + (b + (c + (d + e))), key)
            == FirstOf(Lookup(a, key),
                       FirstOf(Lookup(b, key), FirstOf(Lookup(c, key), FirstOf(Lookup(d, key), Lookup(e, key)))))
  {
    LookupConcat(a, b + (c + (d + e)), key);
    LookupConcat(b, c + (d + e), key);
    LookupConcat(c, d + e, key);
    LookupConcat(d, e, key);
  }

  lemma LookupInTxt(a: Advertisement, key: string)
    requires key in {NODE_ID, MESH_ID, FINGERPRINT, GRPC_PORT, PAIR_PORT}
    ensures Lookup(TxtOf(a), key) ==
            if key == NODE_ID then Some(a.nodeId)
            else if key == MESH_ID then Some(a.meshId)
            else if key == GRPC_PORT then Some(Itoa(a.grpcPort))
            else if key == PAIR_PORT then (if a.pairPort > 0 then Some(Itoa(a.pairPort)) else None)
            else if a.fingerprint != "" then Some(a.fingerprint) else None
  {
    var pair := if a.pairPort > 0 then [Pair(PAIR_PORT, Itoa(a.pairPort))] else [];
    var mark := if a.fingerprint != "" then [Pair(FINGERPRINT, a.fingerprint)] else [];
    var n, m, g := [Pair(NODE_ID, a.nodeId)], [Pair(MESH_ID, a.meshId)], [Pair(GRPC_PORT, Itoa(a.grpcPort))];
    assert TxtOf(a) == n + (m + (g + (pair + mark)));
    LookupFive(n, m, g, pair, mark, key);
    LookupPair(NODE_ID, a.nodeId, key);
    LookupPair(MESH_ID, a.meshId, key);
    LookupPair(GRPC_PORT, Itoa(a.grpcPort), key);
    LookupPair(PAIR_PORT, Itoa(a.pairPort), key);
    LookupPair(FINGERPRINT, a.fingerprint, key);
  }

  /** An advertisement read back from its own record. */
  function PeerOf(a: Advertisement): Peer
  {
    Peer(a.nodeId, a.meshId, a.fingerprint, "", [], a.grpcPort, a.pairPort, 0)
  }

  predicate Advertisable(a: Advertisement)
  {
    a.nodeId != "" && a.meshId != "" && 1 <= a.grpcPort <= MAX_PORT && 0 <= a.pairPort <= MAX_PORT
  }

  /** Parsing the rendered record recovers every field, exactly for advertisable values: non-empty
      ids, a port in range, and a pairing port in range or absent. */
  lemma TxtRoundTrip(a: Advertisement)
    ensures ParseTxt(TxtOf(a)) == Ok(PeerOf(a)) <==> Advertisable(a)
  {
    LookupInTxt(a, NODE_ID);
    LookupInTxt(a, MESH_ID);
    LookupInTxt(a, FINGERPRINT);
    LookupInTxt(a, GRPC_PORT);
    LookupInTxt(a, PAIR_PORT);
    PrintThenParse(a.grpcPort);
    PrintThenParse(a.pairPort);
    assert Itoa(a.grpcPort) != "" && Itoa(a.pairPort) != "";
  }

  /** A decimal port from 1 to 65535. */
  predicate GoodPort(s: string)
  {
    Atoi(s).Some? && 1 <= Atoi(s).value <= 65535
  }

  /** What is missing or wrong in a record, in the order of the checks, and what is read otherwise. */
  lemma ParseAnswers(txt: seq<string>)
    ensures var r := ParseTxt(txt);
            var node, mesh := OrEmpty(Lookup(txt, "node_id")), OrEmpty(Lookup(txt, "mesh_id"));
            var grpc, pair := OrEmpty(Lookup(txt, "grpc_port")), OrEmpty(Lookup(txt, "pair_port"));
            if node == "" then r == Err(MissingNodeId)
            else if mesh == "" then r == Err(MissingMeshId)
            else if grpc == "" then r == Err(MissingGrpcPort)
            else if !GoodPort(grpc) || (pair != "" && !GoodPort(pair)) then r == Err(BadGrpcPort)
            else
              r == Ok(Peer(node, mesh, OrEmpty(Lookup(txt, "fingerprint")), "", [],
                           Atoi(grpc).value, if pair == "" then 0 else Atoi(pair).value, 0))
  {
  }

  /** A pairing port out of range is advertised all the same, and then nobody can read the record. */
  lemma TxtRefused(a: Advertisement)
    requires a.nodeId != "" && a.meshId != "" && 1 <= a.grpcPort <= MAX_PORT && a.pairPort > MAX_PORT
    ensures ParseTxt(TxtOf(a)) == Err(BadGrpcPort)
  {
    LookupInTxt(a, NODE_ID);
    LookupInTxt(a, MESH_ID);
    LookupInTxt(a, GRPC_PORT);
    LookupInTxt(a, PAIR_PORT);
    PrintThenParse(a.grpcPort);
    PrintThenParse(a.pairPort);
    assert Itoa(a.grpcPort) != "" && Itoa(a.pairPort) != "";
  }

  /** A string that the parser skips when it comes after `before`: no '=', a key that is not
      defined, or a key that was given already. */
  predicate Ignored(before: seq<string>, s: string)
  {
    var (k, v) := Cut(s, "=");
    v.None? || k !in {NODE_ID, MESH_ID, FINGERPRINT, GRPC_PORT, PAIR_PORT} || Lookup(before, k).Some?
  }

  lemma InsertKeepsLookup(before: seq<string>, s: string, after: seq<string>, key: string)
    requires Ignored(before, s) && key in {NODE_ID, MESH_ID, FINGERPRINT, GRPC_PORT, PAIR_PORT}
    ensures Lookup(before + [s] + after, key) == Lookup(before + after, key)
  {
    assert before + [s] + after == before + ([s] + after);
    LookupConcat(before, [s] + after, key);
    LookupConcat([s], after, key);
    LookupConcat(before, after, key);
    assert [s][1..] == [];
  }

  /** Inserting an ignored string anywhere changes nothing. */
  lemma InsertChangesNothing(before: seq<string>, s: string, after: seq<string>)
    requires Ignored(before, s)
    ensures ParseTxt(before + [s] + after) == ParseTxt(before + after)
  {
    InsertKeepsLookup(before, s, after, NODE_ID);
    InsertKeepsLookup(before, s, after, MESH_ID);
    InsertKeepsLookup(before, s, after, FINGERPRINT);
    InsertKeepsLookup(before, s, after, GRPC_PORT);
    InsertKeepsLookup(before, s, after, PAIR_PORT);
  }
}
