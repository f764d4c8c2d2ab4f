/** What is on the ring, said of the node list and the hash alone: which positions, whose they are, and how
    many there are. */
module RingPositions {
  import opened Prelude
  import opened HashRings

  /** The labels of virtual nodes are all different, whatever the names of the nodes. */
  lemma LabelsDiffer(a: NodeId, i: nat, b: NodeId, j: nat)
    requires Label(a, i) == Label(b, j)
    ensures a == b && i == j
  {
    JoinTells(a, i, b, j);
  }

  predicate HashesTo(hash: string -> int, node: NodeId, i: int, k: int) {
    0 <= i && hash(Label(node, i)) == k
  }

  /** One of the node's virtual nodes hashes to k. */
  ghost predicate Claims(hash: string -> int, node: NodeId, replicas: int, k: int) {
    exists i :: 0 <= i < replicas && HashesTo(hash, node, i, k)
  }

  lemma PointsAreClaims(hash: string -> int, node: NodeId, replicas: int, k: int)
    ensures k in Points(hash, node, replicas) <==> Claims(hash, node, replicas, k)
  {
    if k in Points(hash, node, replicas) {
      var i :| 0 <= i < replicas && hash(Label(node, i)) == k;
      assert HashesTo(hash, node, i, k);
    }
  }

  /** The p-th listed node claims k and no later one does. */
  ghost predicate LastClaim(hash: string -> int, nodes: seq<NodeId>, replicas: int, k: int, p: int) {
    && 0 <= p < |nodes| && Claims(hash, nodes[p], replicas, k)
    && forall q :: p < q < |nodes| ==> !Claims(hash, nodes[q], replicas, k)
  }

  ghost predicate ClaimedBy(hash: string -> int, nodes: seq<NodeId>, replicas: int, k: int, node: NodeId) {
    exists p :: LastClaim(hash, nodes, replicas, k, p) && nodes[p] == node
  }

  lemma {:induction false} ClaimedByMore(hash: string -> int, nodes: seq<NodeId>, replicas: int, k: int,
                                         x: NodeId, node: NodeId)
    ensures ClaimedBy(hash, nodes + [x], replicas, k, node)
       <==> if Claims(hash, x, replicas, k) then node == x else ClaimedBy(hash, nodes, replicas, k, node)
  {
    var more := nodes + [x];
    assert more[|nodes|] == x && forall q :: 0 <= q < |nodes| ==> nodes[q] == more[q];
    if Claims(hash, x, replicas, k) {
      assert LastClaim(hash, more, replicas, k, |nodes|);
    } else {
      if ClaimedBy(hash, nodes, replicas, k, node) {
        var p :| LastClaim(hash, nodes, replicas, k, p) && nodes[p] == node;
        assert LastClaim(hash, more, replicas, k, p);
      }
      if ClaimedBy(hash, more, replicas, k, node) {
        var p :| LastClaim(hash, more, replicas, k, p) && more[p] == node;
        assert LastClaim(hash, nodes, replicas, k, p);
      }
    }
  }

  /** A position is on the ring with a node exactly when that node is the last listed one to claim it. */
  lemma {:induction false} OnRingIff(hash: string -> int, nodes: seq<NodeId>, replicas: int, k: int, node: NodeId)
    ensures k in RingOf(hash, nodes, replicas) && RingOf(hash, nodes, replicas)[k] == node
       <==> ClaimedBy(hash, nodes, replicas, k, node)
  {
    if nodes != [] {
      var front, x := nodes[..|nodes| - 1], nodes[|nodes| - 1];
      assert nodes == front + [x];
      OnRingIff(hash, front, replicas, k, node);
      PointsAreClaims(hash, x, replicas, k);
      ClaimedByMore(hash, front, replicas, k, x, node);
    }
  }

  /** Each virtual node of each listed node has its position on the ring. */
  lemma {:induction false} VirtualNodeOnRing(hash: string -> int, nodes: seq<NodeId>, replicas: int, node: NodeId,
                                             i: int)
    requires node in nodes && 0 <= i < replicas
    ensures hash(Label(node, i)) in RingOf(hash, nodes, replicas)
  {
    if nodes[|nodes| - 1] != node {
      assert nodes == nodes[..|nodes| - 1] + [nodes[|nodes| - 1]];
      VirtualNodeOnRing(hash, nodes[..|nodes| - 1], replicas, node, i);
    }
  }

  // ---------------------------------------------------------------- how many positions

  /** No two labels of listed nodes have one hash. */
  ghost predicate Injective(hash: string -> int, nodes: seq<NodeId>, replicas: int) {
    forall a, b, i, j :: (a in nodes && b in nodes && 0 <= i < replicas && 0 <= j < replicas
                          && hash(Label(a, i)) == hash(Label(b, j))) ==> Label(a, i) == Label(b, j)
  }

  lemma {:induction false} PointsCard(hash: string -> int, node: NodeId, count: nat)
    requires forall i, j :: 0 <= i < j < count ==> hash(Label(node, i)) != hash(Label(node, j))
    ensures |Points(hash, node, count)| == count
  {
    if count > 0 {
      var front, k := Points(hash, node, count - 1), hash(Label(node, count - 1));
      PointsCard(hash, node, count - 1);
      assert Points(hash, node, count) == front + {k};
    }
  }

  lemma InjectiveTells(hash: string -> int, nodes: seq<NodeId>, replicas: int, a: NodeId, i: int, b: NodeId, j: int)
    requires Injective(hash, nodes, replicas) && a in nodes && b in nodes && 0 <= i < replicas && 0 <= j < replicas
    requires hash(Label(a, i)) == hash(Label(b, j))
    ensures a == b && i == j
  {
    LabelsDiffer(a, i, b, j);
  }

  /** The positions that belong to a node. */
  function Owned(ring: map<int, NodeId>, node: NodeId): set<int> {
    set k | k in ring && ring[k] == node
  }

  lemma OnlyClaim(hash: string -> int, nodes: seq<NodeId>, replicas: int, node: NodeId, k: int)
    requires Injective(hash, nodes, replicas) && node in nodes && Claims(hash, node, replicas, k)
    ensures k in RingOf(hash, nodes, replicas) && RingOf(hash, nodes, replicas)[k] == node
  {
    var i :| 0 <= i < replicas && HashesTo(hash, node, i, k);
    VirtualNodeOnRing(hash, nodes, replicas, node, i);
    RingMember(hash, nodes, replicas, k);
    var owner := RingOf(hash, nodes, replicas)[k];
    var j :| 0 <= j < replicas && hash(Label(owner, j)) == k;
    InjectiveTells(hash, nodes, replicas, node, i, owner, j);
  }

  /** With such a hash every listed node has exactly `replicas` positions. */
  lemma {:induction false} EachOwnsReplicas(hash: string -> int, nodes: seq<NodeId>, replicas: nat, node: NodeId)
    requires Injective(hash, nodes, replicas) && node in nodes
    ensures |Owned(RingOf(hash, nodes, replicas), node)| == replicas
  {
    var ring := RingOf(hash, nodes, replicas);
    forall i, j | 0 <= i < j < replicas ensures hash(Label(node, i)) != hash(Label(node, j)) {
      if hash(Label(node, i)) == hash(Label(node, j)) {
        InjectiveTells(hash, nodes, replicas, node, i, node, j);
        assert false;
      }
    }
    PointsCard(hash, node, replicas);
    forall k ensures k in Owned(ring, node) <==> k in Points(hash, node, replicas) {
      PointsAreClaims(hash, node, replicas, k);
      if k in Owned(ring, node) {
        RingMember(hash, nodes, replicas, k);
        var i :| 0 <= i < replicas && hash(Label(node, i)) == k;
        assert HashesTo(hash, node, i, k);
      }
      if k in Points(hash, node, replicas) {
        OnlyClaim(hash, nodes, replicas, node, k);
      }
    }
    assert Owned(ring, node) == Points(hash, node, replicas);
  }

  function OwnedByAny(ring: map<int, NodeId>, owners: set<NodeId>): set<int> {
    set k | k in ring && ring[k] in owners
  }

  lemma {:induction false} CountByOwner(ring: map<int, NodeId>, owners: set<NodeId>, each: nat)
    requires forall n :: n in owners ==> |Owned(ring, n)| == each
    ensures |OwnedByAny(ring, owners)| == each * |owners|
    decreases |owners|
  {
    if owners == {} {
      assert OwnedByAny(ring, owners) == {};
    } else {
      var n := Member(owners);
      var rest := owners - {n};
      CountByOwner(ring, rest, each);
      OneMoreOwner(ring, rest, n);
      assert owners == rest + {n};
      assert |owners| == |rest| + 1;
    }
  }

  lemma OneMoreOwner(ring: map<int, NodeId>, owners: set<NodeId>, n: NodeId)
    requires n !in owners
    ensures |OwnedByAny(ring, owners + {n})| == |OwnedByAny(ring, owners)| + |Owned(ring, n)|
  {
    assert OwnedByAny(ring, owners + {n}) == OwnedByAny(ring, owners) + Owned(ring, n);
    assert OwnedByAny(ring, owners) !! Owned(ring, n);
  }

  /** With a hash that tells labels apart the ring has `replicas` positions for each listed node. */
  lemma {:induction false} RingSize(hash: string -> int, nodes: seq<NodeId>, replicas: nat)
    requires Injective(hash, nodes, replicas)
    ensures |RingOf(hash, nodes, replicas)| == replicas * |Elems(nodes)|
  {
    var ring := RingOf(hash, nodes, replicas);
    forall n | n in Elems(nodes) ensures |Owned(ring, n)| == replicas {
      EachOwnsReplicas(hash, nodes, replicas, n);
    }
    CountByOwner(ring, Elems(nodes), replicas);
    forall k | k in ring ensures ring[k] in Elems(nodes) {
      RingMember(hash, nodes, replicas, k);
    }
    assert OwnedByAny(ring, Elems(nodes)) == ring.Keys;
    assert |ring| == |ring.Keys|;
  }

  // ---------------------------------------------------------------- the order of a preference list

  /** Walking clockwise from pos, j comes before k. */
  predicate Ahead(pos: int, j: int, k: int) {
    if pos <= j then k < pos || j < k else k < pos && j < k
  }

  lemma {:induction false} WalkOrder(keys: set<int>, pos: int)
    ensures forall i, j :: 0 <= i < j < |Clockwise(keys, pos)| ==>
              Ahead(pos, Clockwise(keys, pos)[i], Clockwise(keys, pos)[j])
  {
    var s := Sorted(keys);
    SplitAscending(s, pos);
    var f, b := From(s, pos), Before(s, pos);
    Sides(s, pos);
    WalkInOrder(f, b, pos);
  }

  lemma WalkInOrder(f: seq<int>, b: seq<int>, pos: int)
    requires Ascending(f) && Ascending(b)
    requires forall i :: 0 <= i < |f| ==> pos <= f[i]
    requires forall i :: 0 <= i < |b| ==> b[i] < pos
    ensures forall i, j :: 0 <= i < j < |f + b| ==> Ahead(pos, (f + b)[i], (f + b)[j])
  {
  }

  /** Of two elements the one that comes first in the list of distinct ones comes first in the list. */
  lemma {:induction false} DistinctInOrder(s: seq<NodeId>, a: int, b: int) returns (i: int)
    requires 0 <= a < b < |Distinct(s)|
    ensures 0 <= i < |s| && s[i] == Distinct(s)[a]
    ensures forall j :: 0 <= j < |s| && s[j] == Distinct(s)[b] ==> i < j
  {
    var front, x := s[..|s| - 1], s[|s| - 1];
    assert s == front + [x];
    DistinctFacts(front);
    if b < |Distinct(front)| {
      i := DistinctInOrder(front, a, b);
    } else {
      assert Distinct(front)[a] in front;
      i :| 0 <= i < |front| && front[i] == Distinct(front)[a];
      assert x !in front;
    }
  }

  /** A preference list is in the order in which the walk meets the nodes: some position of the earlier node
      comes before all positions of the later one. */
  lemma {:induction false} PreferenceInOrder(ring: map<int, NodeId>, pos: int, a: int, b: int) returns (h: int)
    requires 0 <= a < b < |Preference(ring, pos)|
    ensures h in ring && ring[h] == Preference(ring, pos)[a]
    ensures forall k :: k in ring && ring[k] == Preference(ring, pos)[b] ==> Ahead(pos, h, k)
  {
    var w := Clockwise(ring.Keys, pos);
    var s := Along(ring, w);
    var i := DistinctInOrder(s, a, b);
    WalkMembers(ring.Keys, pos);
    WalkOrder(ring.Keys, pos);
    h := w[i];
    assert h in w;
    forall k | k in ring && ring[k] == Preference(ring, pos)[b] ensures Ahead(pos, h, k) {
      assert k in w;
      var j :| 0 <= j < |w| && w[j] == k;
      assert s[j] == ring[k];
    }
  }
}
