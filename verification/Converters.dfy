/** Conversions between the framework's ledger and gateway records and their wire forms. */
module Converters {
  import opened Base

  // ------------------------------------------------------------ ledger configuration

  datatype ConsensusNode = ConsensusNode(nodeID: bytes, weight: uint64)
  datatype WireNode = WireNode(nodeID: bytes, weight: int64)

  datatype LedgerConfig = LedgerConfig(
    consensusNodes: seq<ConsensusNode>, observerNodes: seq<ConsensusNode>, hash: H256, blockNumber: int64,
    blockTxCountLimit: uint64, leaderSwitchPeriod: uint64, sealerId: int64)

  datatype WireLedgerConfig = WireLedgerConfig(
    consensusNodeList: seq<WireNode>, observerNodeList: seq<WireNode>, hash: bytes, blockNumber: int64,
    blockTxCountLimit: int64, leaderSwitchPeriod: int64, sealerId: int64)

  lemma WeightsSurvive(u: uint64, n: int64)
    ensures AsUInt64(AsInt64(u)) == u && AsInt64(AsUInt64(n)) == n
  {
  }

  method ToConsensusNodeList(wire: seq<WireNode>) returns (nodes: seq<ConsensusNode>)
    ensures |nodes| == |wire|
    ensures forall i | 0 <= i < |wire| :: nodes[i] == ConsensusNode(wire[i].nodeID, AsUInt64(wire[i].weight))
  {
    nodes := [];
    for i := 0 to |wire|
      invariant |nodes| == i
      invariant forall k | 0 <= k < i :: nodes[k] == ConsensusNode(wire[k].nodeID, AsUInt64(wire[k].weight))
    {
      nodes := nodes + [ConsensusNode(wire[i].nodeID, AsUInt64(wire[i].weight))];
    }
  }

  method ToTarsConsensusNodeList(nodes: seq<ConsensusNode>) returns (wire: seq<WireNode>)
    ensures |wire| == |nodes|
    ensures forall i | 0 <= i < |nodes| :: wire[i] == WireNode(nodes[i].nodeID, AsInt64(nodes[i].weight))
  {
    wire := [];
    for i := 0 to |nodes|
      invariant |wire| == i
      invariant forall k | 0 <= k < i :: wire[k] == WireNode(nodes[k].nodeID, AsInt64(nodes[k].weight))
    {
      wire := wire + [WireNode(nodes[i].nodeID, AsInt64(nodes[i].weight))];
    }
  }

  /** A node and its wire form, whose weight holds the same 64 bits. */
  predicate SameNode(node: ConsensusNode, wire: WireNode) {
    node.nodeID == wire.nodeID && (node.weight - wire.weight) % 0x1_0000_0000_0000_0000 == 0
  }

  /** The wire form of each node, in order. */
  predicate SameNodes(nodes: seq<ConsensusNode>, wire: seq<WireNode>) {
    && |nodes| == |wire|
    && forall i | 0 <= i < |wire| :: nodes[i].nodeID == wire[i].nodeID && AsInt64(nodes[i].weight) == wire[i].weight
  }

  /** Everything but the hash, whose wire form may have any length. */
  predicate SameConfig(c: LedgerConfig, w: WireLedgerConfig) {
    && SameNodes(c.consensusNodes, w.consensusNodeList) && SameNodes(c.observerNodes, w.observerNodeList)
    && c.blockNumber == w.blockNumber && AsInt64(c.blockTxCountLimit) == w.blockTxCountLimit
    && AsInt64(c.leaderSwitchPeriod) == w.leaderSwitchPeriod && c.sealerId == w.sealerId
  }

  method ToLedgerConfig(w: WireLedgerConfig) returns (c: LedgerConfig)
    ensures SameConfig(c, w)
    ensures |c.consensusNodes| == |w.consensusNodeList| && |c.observerNodes| == |w.observerNodeList|
    ensures forall i | 0 <= i < |c.consensusNodes| :: SameNode(c.consensusNodes[i], w.consensusNodeList[i])
    ensures forall i | 0 <= i < |c.observerNodes| :: SameNode(c.observerNodes[i], w.observerNodeList[i])
    ensures c.blockNumber == w.blockNumber && c.sealerId == w.sealerId
    ensures (c.blockTxCountLimit - w.blockTxCountLimit) % 0x1_0000_0000_0000_0000 == 0
    ensures (c.leaderSwitchPeriod - w.leaderSwitchPeriod) % 0x1_0000_0000_0000_0000 == 0
    ensures c.hash == if |w.hash| >= 32 then w.hash[..32] else ZERO_HASH
  {
    var consensus := ToConsensusNodeList(w.consensusNodeList);
    var observers := ToConsensusNodeList(w.observerNodeList);
    var hash := ZERO_HASH;
    if |w.hash| >= 32 {
      hash := w.hash[..32];
    }
    c := LedgerConfig(consensus, observers, hash, w.blockNumber, AsUInt64(w.blockTxCountLimit),
                      AsUInt64(w.leaderSwitchPeriod), w.sealerId);
  }

  method ToTarsLedgerConfig(c: LedgerConfig) returns (w: WireLedgerConfig)
    ensures SameConfig(c, w) && w.hash == c.hash
    ensures |c.consensusNodes| == |w.consensusNodeList| && |c.observerNodes| == |w.observerNodeList|
    ensures forall i | 0 <= i < |c.consensusNodes| :: SameNode(c.consensusNodes[i], w.consensusNodeList[i])
    ensures forall i | 0 <= i < |c.observerNodes| :: SameNode(c.observerNodes[i], w.observerNodeList[i])
    ensures c.blockNumber == w.blockNumber && c.sealerId == w.sealerId
    ensures (c.blockTxCountLimit - w.blockTxCountLimit) % 0x1_0000_0000_0000_0000 == 0
    ensures (c.leaderSwitchPeriod - w.leaderSwitchPeriod) % 0x1_0000_0000_0000_0000 == 0
  {
    var consensus := ToTarsConsensusNodeList(c.consensusNodes);
    var observers := ToTarsConsensusNodeList(c.observerNodes);
    w := WireLedgerConfig(consensus, observers, c.hash, c.blockNumber, AsInt64(c.blockTxCountLimit),
                          AsInt64(c.leaderSwitchPeriod), c.sealerId);
  }

  /** Corresponding forms determine each other: a 64-bit weight is never lost in the signed field. */
  lemma SameConfigDetermines(c: LedgerConfig, c': LedgerConfig, w: WireLedgerConfig, w': WireLedgerConfig)
    requires SameConfig(c, w) && SameConfig(c', w')
    ensures w.(hash := []) == w'.(hash := []) <==> c.(hash := ZERO_HASH) == c'.(hash := ZERO_HASH)
  {
    SameNodesDetermine(c.consensusNodes, c'.consensusNodes, w.consensusNodeList, w'.consensusNodeList);
    SameNodesDetermine(c.observerNodes, c'.observerNodes, w.observerNodeList, w'.observerNodeList);
  }

  lemma SameNodesDetermine(a: seq<ConsensusNode>, a': seq<ConsensusNode>, w: seq<WireNode>, w': seq<WireNode>)
    requires SameNodes(a, w) && SameNodes(a', w')
    ensures w == w' <==> a == a'
  {
    if w == w' {
      assert forall i | 0 <= i < |a| :: a[i] == a'[i];
    }
    if a == a' {
      assert forall i | 0 <= i < |w| :: w[i] == w'[i];
    }
  }

  /** Out and back, and back and out: the converters undo each other, the second exactly when the
      wire hash has 32 bytes. */
  method LedgerRoundTrips(c: LedgerConfig, w: WireLedgerConfig) returns (c': LedgerConfig, w': WireLedgerConfig)
    ensures c' == c
    ensures w' == w <==> |w.hash| == 32
  {
    var out := ToTarsLedgerConfig(c);
    c' := ToLedgerConfig(out);
    assert out.hash[..32] == out.hash;
    SameConfigDetermines(c, c', out, out);
    assert c'.(hash := ZERO_HASH) == c.(hash := ZERO_HASH);
    var inward := ToLedgerConfig(w);
    w' := ToTarsLedgerConfig(inward);
    SameConfigDetermines(inward, inward, w, w');
    assert w.(hash := []) == w'.(hash := []);
    if |w.hash| == 32 {
      assert w.hash[..32] == w.hash;
    }
  }

  // ------------------------------------------------------------ gateway information

  datatype P2PInfo = P2PInfo(p2pID: bytes, agencyName: bytes, nodeName: bytes, address: bytes, port: int32)
  datatype WireP2PInfo = WireP2PInfo(p2pID: bytes, agencyName: bytes, nodeName: bytes, host: bytes, port: int32)

  datatype GatewayInfo = GatewayInfo(p2p: P2PInfo, nodeIDs: map<bytes, set<bytes>>)
  datatype GroupNodeIDs = GroupNodeIDs(groupID: bytes, nodeIDList: seq<bytes>)
  datatype WireGatewayInfo = WireGatewayInfo(p2pInfo: WireP2PInfo, nodeIDInfo: seq<GroupNodeIDs>)

  function Elems(s: seq<bytes>): (r: set<bytes>)
    ensures forall x :: x in r <==> x in s
  {
    set x | x in s
  }

  /** An order in which the hash map of groups is walked, and for each group an order of its set. */
  datatype Walk = Walk(groups: seq<bytes>, ids: map<bytes, seq<bytes>>)

  ghost predicate Walks(w: Walk, m: map<bytes, set<bytes>>) {
    && Elems(w.groups) == m.Keys
    && (forall i, j | 0 <= i < j < |w.groups| :: w.groups[i] != w.groups[j])
    && w.ids.Keys == m.Keys
    && forall g | g in m :: Elems(w.ids[g]) == m[g]
  }

  method ToTarsGatewayInfo(info: Option<GatewayInfo>, walk: Walk) returns (w: WireGatewayInfo)
    requires info.Some? ==> Walks(walk, info.value.nodeIDs)
    ensures info.None? ==> w == WireGatewayInfo(WireP2PInfo([], [], [], [], 0), [])
    ensures info.Some? ==>
      var p := info.value.p2p;
      && w.p2pInfo == WireP2PInfo(p.p2pID, p.agencyName, p.nodeName, p.address, p.port)
      && |w.nodeIDInfo| == |walk.groups|
      && forall i | 0 <= i < |walk.groups| ::
          w.nodeIDInfo[i] == GroupNodeIDs(walk.groups[i], walk.ids[walk.groups[i]])
  {
    if info.None? {
      return WireGatewayInfo(WireP2PInfo([], [], [], [], 0), []);
    }
    var p := info.value.p2p;
    var list: seq<GroupNodeIDs> := [];
    for i := 0 to |walk.groups|
      invariant |list| == i
      invariant forall k | 0 <= k < i :: list[k] == GroupNodeIDs(walk.groups[k], walk.ids[walk.groups[k]])
    {
      list := list + [GroupNodeIDs(walk.groups[i], walk.ids[walk.groups[i]])];
    }
    w := WireGatewayInfo(WireP2PInfo(p.p2pID, p.agencyName, p.nodeName, p.address, p.port), list);
  }

  /** Entry k is the last one of its group. */
  ghost predicate LastOfGroup(list: seq<GroupNodeIDs>, k: nat) {
    k < |list| && forall j | k < j < |list| :: list[j].groupID != list[k].groupID
  }

  /** The groups of the list, each with the node IDs of its last entry. */
  method FromTarsGatewayInfo(w: WireGatewayInfo) returns (g: GatewayInfo)
    ensures g.p2p == P2PInfo(w.p2pInfo.p2pID, w.p2pInfo.agencyName, w.p2pInfo.nodeName, w.p2pInfo.host, w.p2pInfo.port)
    ensures forall x :: x in g.nodeIDs <==> exists k | 0 <= k < |w.nodeIDInfo| :: w.nodeIDInfo[k].groupID == x
    ensures forall k | 0 <= k < |w.nodeIDInfo| && LastOfGroup(w.nodeIDInfo, k) ::
      g.nodeIDs[w.nodeIDInfo[k].groupID] == Elems(w.nodeIDInfo[k].nodeIDList)
  {
    var p := w.p2pInfo;
    var list := w.nodeIDInfo;
    var m: map<bytes, set<bytes>> := map[];
    for i := 0 to |list|
      invariant forall x :: x in m <==> exists k | 0 <= k < i :: list[k].groupID == x
      invariant forall k | 0 <= k < i && LastOfGroup(list[..i], k) :: m[list[k].groupID] == Elems(list[k].nodeIDList)
    {
      ghost var before := m;
      m := m[list[i].groupID := Elems(list[i].nodeIDList)];
      forall k | 0 <= k < i + 1 && LastOfGroup(list[..i + 1], k)
        ensures list[k].groupID in m && m[list[k].groupID] == Elems(list[k].nodeIDList)
      {
        if k < i {
          assert list[..i + 1][i].groupID != list[..i + 1][k].groupID;
          assert LastOfGroup(list[..i], k) by {
            assert forall j | k < j < i :: list[..i][j] == list[..i + 1][j];
          }
        }
      }
    }
    assert list[..|list|] == list;
    g := GatewayInfo(P2PInfo(p.p2pID, p.agencyName, p.nodeName, p.host, p.port), m);
  }

  /** Whatever order the groups and the sets are walked in, the receiver gets the same map. */
  method GatewayRoundTrip(info: GatewayInfo, walk: Walk) returns (g: GatewayInfo)
    requires Walks(walk, info.nodeIDs)
    ensures g == info
  {
    var w := ToTarsGatewayInfo(Some(info), walk);
    g := FromTarsGatewayInfo(w);
    forall x
      ensures x in g.nodeIDs <==> x in info.nodeIDs
    {
      assert x in Elems(walk.groups) <==> x in info.nodeIDs.Keys;
      if x in info.nodeIDs {
        var i :| 0 <= i < |walk.groups| && walk.groups[i] == x;
        assert w.nodeIDInfo[i].groupID == x;
      }
    }
    forall x | x in info.nodeIDs
      ensures g.nodeIDs[x] == info.nodeIDs[x]
    {
      assert x in Elems(walk.groups);
      var i :| 0 <= i < |walk.groups| && walk.groups[i] == x;
      assert w.nodeIDInfo[i] == GroupNodeIDs(x, walk.ids[x]);
      assert LastOfGroup(w.nodeIDInfo, i);
    }
  }
}
