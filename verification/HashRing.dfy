/** The consistent hash ring that places queues on nodes. The hash is any function. */
module HashRings {
  import opened Prelude

  // ---------------------------------------------------------------- the ring

  /** The string that is hashed for the i-th virtual node. */
  function Label(node: NodeId, i: nat): string {
    Join(node, i)
  }

  /** The positions that a node claims on the ring with its first `count` virtual nodes. */
  function Points(hash: string -> int, node: NodeId, count: int): set<int> {
    set i | 0 <= i < count :: hash(Label(node, i))
  }

  function Claim(hash: string -> int, ring: map<int, NodeId>, node: NodeId, count: int): map<int, NodeId> {
    ring + map p | p in Points(hash, node, count) :: node
  }

  /** Nodes claim their positions in list order; a later claim of the same position wins. */
  function RingOf(hash: string -> int, nodes: seq<NodeId>, replicas: int): map<int, NodeId> {
    if nodes == [] then map[]
    else Claim(hash, RingOf(hash, nodes[..|nodes| - 1], replicas), nodes[|nodes| - 1], replicas)
  }

  // ---------------------------------------------------------------- sorted positions

  ghost predicate Ascending(s: seq<int>) {
    forall i, j :: 0 <= i < j < |s| ==> s[i] < s[j]
  }

  predicate IsLeast(m: int, s: set<int>) {
    m in s && forall x :: x in s ==> m <= x
  }

  lemma {:induction false} HasLeast(s: set<int>)
    requires s != {}
    ensures exists m :: IsLeast(m, s)
    decreases |s|
  {
    var x := Member(s);
    var rest := s - {x};
    if rest == {} {
      assert s == {x};
      assert IsLeast(x, s);
    } else {
      HasLeast(rest);
      var m :| IsLeast(m, rest);
      forall y | y in s ensures Min(m, x) <= y {
        assert y == x || y in rest;
      }
      assert IsLeast(Min(m, x), s);
    }
  }

  function Least(s: set<int>): (m: int)
    requires s != {}
    ensures IsLeast(m, s)
  {
    HasLeast(s);
    var m :| m in s && IsLeast(m, s);
    m
  }

  function Sorted(s: set<int>): (r: seq<int>)
    ensures Ascending(r) && (forall x :: x in r <==> x in s)
    decreases |s|
  {
    if s == {} then [] else [Least(s)] + Sorted(s - {Least(s)})
  }

  lemma {:induction false} AscendingUnique(a: seq<int>, b: seq<int>)
    requires Ascending(a) && Ascending(b) && forall x :: x in a <==> x in b
    ensures a == b
    decreases |a|
  {
    assert a != [] ==> a[0] in a;
    assert b != [] ==> b[0] in b;
    if a != [] && b != [] {
      assert a[0] in b && b[0] in a;
      assert a[0] == b[0];
      forall x ensures x in a[1..] <==> x in b[1..] {
        assert x in a[1..] <==> x in a && x != a[0];
        assert x in b[1..] <==> x in b && x != b[0];
      }
      AscendingUnique(a[1..], b[1..]);
      assert a == [a[0]] + a[1..] && b == [b[0]] + b[1..];
    }
  }

  // ---------------------------------------------------------------- walking clockwise

  function From(keys: seq<int>, pos: int): seq<int> {
    if keys == [] then []
    else
      var k := keys[|keys| - 1];
      From(keys[..|keys| - 1], pos) + if pos <= k then [k] else []
  }

  function Before(keys: seq<int>, pos: int): seq<int> {
    if keys == [] then []
    else
      var k := keys[|keys| - 1];
      Before(keys[..|keys| - 1], pos) + if pos <= k then [] else [k]
  }

  /** The positions met walking clockwise from `pos`, each once. */
  function Clockwise(keys: set<int>, pos: int): seq<int> {
    From(Sorted(keys), pos) + Before(Sorted(keys), pos)
  }

  /** A value for every position; the positions of a walk are all on the ring. */
  function At(ring: map<int, NodeId>, k: int): NodeId {
    if k in ring then ring[k] else ""
  }

  function Along(ring: map<int, NodeId>, ks: seq<int>): seq<NodeId> {
    seq(|ks|, i requires 0 <= i < |ks| => At(ring, ks[i]))
  }

  /** Each element at its first occurrence. */
  function Distinct<T(==)>(s: seq<T>): seq<T> {
    if s == [] then []
    else
      var d := Distinct(s[..|s| - 1]);
      if s[|s| - 1] in d then d else d + [s[|s| - 1]]
  }

  /** The nodes in the order in which a clockwise walk from `pos` first meets them. */
  function Preference(ring: map<int, NodeId>, pos: int): seq<NodeId> {
    Distinct(Along(ring, Clockwise(ring.Keys, pos)))
  }

  function Take<T>(s: seq<T>, count: int): seq<T> {
    s[..Max(0, Min(count, |s|))]
  }

  /** The position that owns `pos`: the next one clockwise. */
  ghost predicate Successor(keys: set<int>, pos: int, k: int) {
    && k in keys
    && if pos <= k then forall j :: j in keys && pos <= j ==> k <= j
       else (forall j :: j in keys ==> j < pos) && forall j :: j in keys ==> k <= j
  }

  ghost predicate Owns(ring: map<int, NodeId>, pos: int, node: NodeId) {
    exists k :: Successor(ring.Keys, pos, k) && At(ring, k) == node
  }

  // ---------------------------------------------------------------- facts about Distinct and the walk

  lemma {:induction false} DistinctFacts<T>(s: seq<T>)
    ensures forall x :: x in Distinct(s) <==> x in s
    ensures forall i, j :: 0 <= i < j < |Distinct(s)| ==> Distinct(s)[i] != Distinct(s)[j]
    ensures s != [] ==> Distinct(s) != [] && Distinct(s)[0] == s[0]
  {
    if s != [] {
      var front := s[..|s| - 1];
      DistinctFacts(front);
      assert s == front + [s[|s| - 1]];
    }
  }

  lemma {:induction false} DistinctAppend<T>(s: seq<T>, x: T)
    ensures Distinct(s + [x]) == if x in Distinct(s) then Distinct(s) else Distinct(s) + [x]
  {
    assert (s + [x])[..|s|] == s;
  }

  lemma {:induction false} DistinctAbsorbs<T>(s: seq<T>, t: seq<T>)
    requires forall x :: x in t ==> x in s
    ensures Distinct(s + t) == Distinct(s)
    decreases |t|
  {
    if t == [] {
      assert s + t == s;
    } else {
      DistinctAbsorbs(s, t[..|t| - 1]);
      assert (s + t)[..|s + t| - 1] == s + t[..|t| - 1];
      DistinctFacts(s);
    }
  }

  lemma {:induction false} SplitMembers(keys: seq<int>, pos: int)
    ensures forall k :: k in From(keys, pos) <==> k in keys && pos <= k
    ensures forall k :: k in Before(keys, pos) <==> k in keys && k < pos
  {
    if keys != [] {
      var front := keys[..|keys| - 1];
      SplitMembers(front, pos);
      assert keys == front + [keys[|keys| - 1]];
    }
  }

  lemma {:induction false} SplitMore(ks: seq<int>, pos: int, k: int)
    ensures From(ks + [k], pos) == From(ks, pos) + if pos <= k then [k] else []
    ensures Before(ks + [k], pos) == Before(ks, pos) + if pos <= k then [] else [k]
  {
    assert (ks + [k])[..|ks|] == ks;
  }

  lemma {:induction false} NoneAhead(keys: seq<int>, pos: int)
    requires forall i :: 0 <= i < |keys| ==> keys[i] < pos
    ensures From(keys, pos) == []
  {
    if keys != [] {
      NoneAhead(keys[..|keys| - 1], pos);
    }
  }

  /** Of ascending positions the two parts are a suffix and a prefix. */
  lemma {:induction false} SplitConcat(keys: seq<int>, pos: int)
    requires Ascending(keys)
    ensures keys == Before(keys, pos) + From(keys, pos)
  {
    if keys != [] {
      var front, k := keys[..|keys| - 1], keys[|keys| - 1];
      SplitConcat(front, pos);
      if k < pos {
        NoneAhead(front, pos);
      }
      SplitConcatMore(front, pos, k);
      assert keys == front + [k];
    }
  }

  lemma {:induction false} SplitConcatMore(front: seq<int>, pos: int, k: int)
    requires front == Before(front, pos) + From(front, pos) && (k < pos ==> From(front, pos) == [])
    ensures front + [k] == Before(front + [k], pos) + From(front + [k], pos)
  {
    SplitMore(front, pos, k);
    AppendToPart(Before(front, pos), From(front, pos), k);
  }

  lemma AppendToPart(b: seq<int>, f: seq<int>, k: int)
    ensures (b + f) + [k] == b + (f + [k])
    ensures f == [] ==> (b + f) + [k] == (b + [k]) + (f + [])
    ensures (b + []) + (f + [k]) == b + (f + [k])
  {
  }

  lemma PartsAscending(a: seq<int>, b: seq<int>)
    requires Ascending(a + b)
    ensures Ascending(a) && Ascending(b)
  {
    assert forall i :: 0 <= i < |a| ==> (a + b)[i] == a[i];
    assert forall i :: 0 <= i < |b| ==> (a + b)[|a| + i] == b[i];
  }

  lemma {:induction false} SplitAscending(keys: seq<int>, pos: int)
    requires Ascending(keys)
    ensures Ascending(From(keys, pos)) && Ascending(Before(keys, pos))
  {
    SplitConcat(keys, pos);
    PartsAscending(Before(keys, pos), From(keys, pos));
  }

  /** Both parts of ascending positions are on their side of pos. */
  lemma {:induction false} Sides(keys: seq<int>, pos: int)
    ensures forall i :: 0 <= i < |From(keys, pos)| ==> pos <= From(keys, pos)[i]
    ensures forall i :: 0 <= i < |Before(keys, pos)| ==> Before(keys, pos)[i] < pos
  {
    if keys != [] {
      Sides(keys[..|keys| - 1], pos);
    }
  }

  lemma WalkMembers(keys: set<int>, pos: int)
    ensures forall k :: k in Clockwise(keys, pos) <==> k in keys
  {
    var s := Sorted(keys);
    SplitMembers(s, pos);
    assert forall k :: k in Clockwise(keys, pos) <==> k in From(s, pos) || k in Before(s, pos);
  }

  /** The walk starts at the position that owns `pos`. */
  lemma WalkStartsAtSuccessor(keys: set<int>, pos: int)
    requires keys != {}
    ensures Clockwise(keys, pos) != [] && Successor(keys, pos, Clockwise(keys, pos)[0])
  {
    var s := Sorted(keys);
    SplitMembers(s, pos);
    SplitAscending(s, pos);
    var f, b := From(s, pos), Before(s, pos);
    var k := Member(keys);
    assert k in f || k in b;
    if f != [] {
      assert f[0] in f && Clockwise(keys, pos)[0] == f[0];
      AllAtLeast(f);
    } else {
      assert b[0] in b && Clockwise(keys, pos)[0] == b[0];
      AllAtLeast(b);
      assert forall j :: j in keys ==> j in b;
    }
  }

  lemma AllAtLeast(s: seq<int>)
    requires Ascending(s)
    ensures forall k :: k in s ==> s[0] <= k
  {
  }

  lemma SuccessorUnique(keys: set<int>, pos: int, j: int, k: int)
    requires Successor(keys, pos, j) && Successor(keys, pos, k)
    ensures j == k
  {
  }

  lemma OwnerUnique(ring: map<int, NodeId>, pos: int, a: NodeId, b: NodeId)
    requires Owns(ring, pos, a) && Owns(ring, pos, b)
    ensures a == b
  {
    var j :| Successor(ring.Keys, pos, j) && At(ring, j) == a;
    var k :| Successor(ring.Keys, pos, k) && At(ring, k) == b;
    SuccessorUnique(ring.Keys, pos, j, k);
  }

  /** What a preference list is: every node on the ring once, the owner first. */
  lemma PreferenceFacts(ring: map<int, NodeId>, pos: int)
    ensures NoDup(Preference(ring, pos))
    ensures Elems(Preference(ring, pos)) == ring.Values
    ensures ring != map[] ==> Preference(ring, pos) != [] && Owns(ring, pos, Preference(ring, pos)[0])
  {
    var w := Clockwise(ring.Keys, pos);
    var s := Along(ring, w);
    DistinctFacts(s);
    if ring.Keys != {} {
      WalkStartsAtSuccessor(ring.Keys, pos);
      assert At(ring, w[0]) == s[0];
    }
    WalkMembers(ring.Keys, pos);
    forall n ensures n in s <==> n in ring.Values {
      if n in s {
        var i :| 0 <= i < |s| && s[i] == n;
        assert w[i] in w;
      }
      if n in ring.Values {
        var k :| k in ring && ring[k] == n;
        var i :| 0 <= i < |w| && w[i] == k;
        assert s[i] == n;
      }
    }
  }

  /** A replica list holds min(count, nodes on the ring) different nodes, the owner of the key first. */
  lemma ReplicaList(ring: map<int, NodeId>, pos: int, count: int, owner: NodeId)
    requires Owns(ring, pos, owner)
    ensures var r := Take(Preference(ring, pos), count);
            && NoDup(r) && |r| == Max(0, Min(count, |ring.Values|)) && Elems(r) <= ring.Values
            && r <= Preference(ring, pos)
            && (count >= 1 ==> r[0] == owner)
  {
    PreferenceFacts(ring, pos);
    NoDupCard(Preference(ring, pos));
    OwnerUnique(ring, pos, owner, Preference(ring, pos)[0]);
    forall x | x in Take(Preference(ring, pos), count) ensures x in ring.Values {
      assert x in Elems(Preference(ring, pos));
    }
  }

  // ---------------------------------------------------------------- minimal disruption

  /** The big ring is the small one with positions of n laid over it. */
  ghost predicate Overlays(big: map<int, NodeId>, small: map<int, NodeId>, n: NodeId) {
    && small.Keys <= big.Keys
    && forall k :: k in big ==> big[k] == n || (k in small && small[k] == big[k])
  }

  /** An overlay takes positions over for n and moves nothing else. */
  lemma OverlayMovesOnlyToNode(big: map<int, NodeId>, small: map<int, NodeId>, n: NodeId, pos: int, a: NodeId,
                               b: NodeId)
    requires Overlays(big, small, n) && Owns(big, pos, a) && Owns(small, pos, b)
    ensures a == n || a == b
  {
    var j :| Successor(big.Keys, pos, j) && At(big, j) == a;
    var k :| Successor(small.Keys, pos, k) && At(small, k) == b;
    if a != n {
      assert Successor(small.Keys, pos, j);
    }
  }

  lemma ClaimKeepsOverlay(hash: string -> int, big: map<int, NodeId>, small: map<int, NodeId>, n: NodeId,
                          x: NodeId, replicas: int)
    requires Overlays(big, small, n)
    ensures Overlays(Claim(hash, big, x, replicas), Claim(hash, small, x, replicas), n)
    ensures Overlays(Claim(hash, big, n, replicas), small, n)
  {
  }

  lemma {:induction false} RingOfMore(hash: string -> int, nodes: seq<NodeId>, x: NodeId, replicas: int)
    ensures RingOf(hash, nodes + [x], replicas) == Claim(hash, RingOf(hash, nodes, replicas), x, replicas)
  {
    assert (nodes + [x])[..|nodes|] == nodes;
  }

  lemma {:induction false} InsertOverlays(hash: string -> int, before: seq<NodeId>, n: NodeId, after: seq<NodeId>,
                                          replicas: int)
    ensures Overlays(RingOf(hash, before + [n] + after, replicas), RingOf(hash, before + after, replicas), n)
    decreases |after|
  {
    if after == [] {
      RingOfMore(hash, before, n, replicas);
      assert before + [n] + after == before + [n] && before + after == before;
    } else {
      var rest, x := after[..|after| - 1], after[|after| - 1];
      InsertOverlays(hash, before, n, rest, replicas);
      RingOfMore(hash, before + [n] + rest, x, replicas);
      RingOfMore(hash, before + rest, x, replicas);
      ClaimKeepsOverlay(hash, RingOf(hash, before + [n] + rest, replicas), RingOf(hash, before + rest, replicas),
                        n, x, replicas);
      assert before + [n] + after == before + [n] + rest + [x] && before + after == before + rest + [x];
    }
  }

  /** Adding a node anywhere in the list moves a key only to that node, whatever the hash. */
  lemma AddingMovesOnlyToNew(hash: string -> int, before: seq<NodeId>, n: NodeId, after: seq<NodeId>, replicas: int,
                             pos: int, old': NodeId, new': NodeId)
    requires Owns(RingOf(hash, before + after, replicas), pos, old')
    requires Owns(RingOf(hash, before + [n] + after, replicas), pos, new')
    ensures new' == old' || new' == n
  {
    InsertOverlays(hash, before, n, after, replicas);
    OverlayMovesOnlyToNode(RingOf(hash, before + [n] + after, replicas), RingOf(hash, before + after, replicas),
                           n, pos, new', old');
  }

  lemma {:induction false} RemoveOverlays(hash: string -> int, nodes: seq<NodeId>, n: NodeId, replicas: int)
    ensures Overlays(RingOf(hash, nodes, replicas), RingOf(hash, Without(n, nodes), replicas), n)
  {
    if nodes != [] {
      var front, x := nodes[..|nodes| - 1], nodes[|nodes| - 1];
      RemoveOverlays(hash, front, n, replicas);
      ClaimKeepsOverlay(hash, RingOf(hash, front, replicas), RingOf(hash, Without(n, front), replicas), n, x, replicas);
      RingOfMore(hash, Without(n, front), x, replicas);
      assert Without(n, front) + [] == Without(n, front);
    }
  }

  /** Removing a node moves only the keys it owned, whatever the hash. */
  lemma RemovingMovesOnlyItsKeys(hash: string -> int, nodes: seq<NodeId>, n: NodeId, replicas: int,
                                 pos: int, old': NodeId, new': NodeId)
    requires Owns(RingOf(hash, nodes, replicas), pos, old') && old' != n
    requires Owns(RingOf(hash, Without(n, nodes), replicas), pos, new')
    ensures new' == old'
  {
    RemoveOverlays(hash, nodes, n, replicas);
    OverlayMovesOnlyToNode(RingOf(hash, nodes, replicas), RingOf(hash, Without(n, nodes), replicas),
                           n, pos, old', new');
  }

  // ---------------------------------------------------------------- stable replica lists

  function KeysWithout(ring: map<int, NodeId>, n: NodeId, ks: seq<int>): seq<int> {
    if ks == [] then []
    else
      var k := ks[|ks| - 1];
      KeysWithout(ring, n, ks[..|ks| - 1]) + if At(ring, k) == n then [] else [k]
  }

  lemma {:induction false} KeysWithoutMembers(ring: map<int, NodeId>, n: NodeId, ks: seq<int>)
    ensures forall k :: k in KeysWithout(ring, n, ks) <==> k in ks && At(ring, k) != n
  {
    if ks != [] {
      KeysWithoutMembers(ring, n, ks[..|ks| - 1]);
      assert ks == ks[..|ks| - 1] + [ks[|ks| - 1]];
    }
  }

  lemma {:induction false} KeysWithoutAscending(ring: map<int, NodeId>, n: NodeId, ks: seq<int>)
    requires Ascending(ks)
    ensures Ascending(KeysWithout(ring, n, ks))
  {
    if ks != [] {
      var front, k := ks[..|ks| - 1], ks[|ks| - 1];
      KeysWithoutAscending(ring, n, front);
      KeysWithoutMembers(ring, n, front);
      forall i | 0 <= i < |KeysWithout(ring, n, front)| ensures KeysWithout(ring, n, front)[i] < k {
        assert KeysWithout(ring, n, front)[i] in front;
      }
    }
  }

  lemma {:induction false} DistinctWithout(n: NodeId, s: seq<NodeId>)
    ensures Distinct(Without(n, s)) == Without(n, Distinct(s))
  {
    if s != [] {
      var front, x := s[..|s| - 1], s[|s| - 1];
      assert s == front + [x];
      DistinctWithout(n, front);
      WithoutMore(n, front, x);
      DistinctAppend(front, x);
      DistinctAppend(Without(n, front), x);
      WithoutMore(n, Distinct(front), x);
      WithoutMembers(n, Distinct(front));
    }
  }

  lemma {:induction false} KeysWithoutMore(ring: map<int, NodeId>, n: NodeId, ks: seq<int>, k: int)
    ensures KeysWithout(ring, n, ks + [k]) == KeysWithout(ring, n, ks) + if At(ring, k) == n then [] else [k]
  {
    assert (ks + [k])[..|ks|] == ks;
  }

  lemma AlongConcat(ring: map<int, NodeId>, a: seq<int>, b: seq<int>)
    ensures Along(ring, a + b) == Along(ring, a) + Along(ring, b)
  {
  }

  lemma {:induction false} AlongWithout(ring: map<int, NodeId>, small: map<int, NodeId>, n: NodeId, ks: seq<int>)
    requires forall k :: k in ks && At(ring, k) != n ==> At(small, k) == At(ring, k)
    ensures Along(small, KeysWithout(ring, n, ks)) == Without(n, Along(ring, ks))
  {
    if ks != [] {
      var front, k := ks[..|ks| - 1], ks[|ks| - 1];
      assert ks == front + [k];
      AlongWithout(ring, small, n, front);
      KeysWithoutMore(ring, n, front, k);
      AlongConcat(ring, front, [k]);
      AlongConcat(small, KeysWithout(ring, n, front), [k]);
      WithoutMore(n, Along(ring, front), At(ring, k));
      assert KeysWithout(ring, n, front) + [] == KeysWithout(ring, n, front);
      assert Along(ring, [k]) == [At(ring, k)] && Along(small, [k]) == [At(small, k)];
    }
  }

  lemma {:induction false} FromWithout(ring: map<int, NodeId>, n: NodeId, ks: seq<int>, pos: int)
    ensures From(KeysWithout(ring, n, ks), pos) == KeysWithout(ring, n, From(ks, pos))
  {
    if ks != [] {
      var front, k := ks[..|ks| - 1], ks[|ks| - 1];
      FromWithout(ring, n, front, pos);
      SplitMore(KeysWithout(ring, n, front), pos, k);
      KeysWithoutMore(ring, n, From(front, pos), k);
      assert forall s: seq<int> {:trigger s + []} :: s + [] == s;
    }
  }

  lemma {:induction false} BeforeWithout(ring: map<int, NodeId>, n: NodeId, ks: seq<int>, pos: int)
    ensures Before(KeysWithout(ring, n, ks), pos) == KeysWithout(ring, n, Before(ks, pos))
  {
    if ks != [] {
      var front, k := ks[..|ks| - 1], ks[|ks| - 1];
      BeforeWithout(ring, n, front, pos);
      SplitMore(KeysWithout(ring, n, front), pos, k);
      KeysWithoutMore(ring, n, Before(front, pos), k);
      assert forall s: seq<int> {:trigger s + []} :: s + [] == s;
    }
  }

  lemma {:induction false} KeysWithoutConcat(ring: map<int, NodeId>, n: NodeId, a: seq<int>, b: seq<int>)
    ensures KeysWithout(ring, n, a + b) == KeysWithout(ring, n, a) + KeysWithout(ring, n, b)
    decreases |b|
  {
    if b == [] {
      assert a + b == a;
    } else {
      var front, k := Unsnoc(b);
      KeysWithoutConcat(ring, n, a, front);
      KeysConcatMore(ring, n, a, front, k);
      Regroup(a, front, [k]);
    }
  }

  lemma Unsnoc<T>(s: seq<T>) returns (front: seq<T>, last: T)
    requires s != []
    ensures s == front + [last] && |front| == |s| - 1
  {
    front, last := s[..|s| - 1], s[|s| - 1];
  }

  lemma {:induction false} KeysConcatMore(ring: map<int, NodeId>, n: NodeId, a: seq<int>, b: seq<int>, k: int)
    requires KeysWithout(ring, n, a + b) == KeysWithout(ring, n, a) + KeysWithout(ring, n, b)
    ensures KeysWithout(ring, n, (a + b) + [k]) == KeysWithout(ring, n, a) + KeysWithout(ring, n, b + [k])
  {
    KeysWithoutMore(ring, n, a + b, k);
    KeysWithoutMore(ring, n, b, k);
    Regroup(KeysWithout(ring, n, a), KeysWithout(ring, n, b), if At(ring, k) == n then [] else [k]);
  }

  lemma Regroup<T>(x: seq<T>, y: seq<T>, z: seq<T>)
    ensures (x + y) + z == x + (y + z)
  {
  }

  /** n hides no one: where it owns a position, no other node has claimed it. With a hash that gives
      every virtual node its own position this always holds. */
  ghost predicate HidesNone(big: map<int, NodeId>, small: map<int, NodeId>, n: NodeId) {
    forall k :: k in big && big[k] == n ==> k !in small
  }

  lemma SortedWithout(big: map<int, NodeId>, small: map<int, NodeId>, n: NodeId)
    requires Overlays(big, small, n) && HidesNone(big, small, n)
    ensures Sorted(small.Keys) == KeysWithout(big, n, Sorted(big.Keys))
  {
    var ks := Sorted(big.Keys);
    KeysWithoutAscending(big, n, ks);
    KeysWithoutMembers(big, n, ks);
    AscendingUnique(Sorted(small.Keys), KeysWithout(big, n, ks));
  }

  lemma ClockwiseWithout(big: map<int, NodeId>, small: map<int, NodeId>, n: NodeId, pos: int)
    requires Overlays(big, small, n) && HidesNone(big, small, n)
    ensures Clockwise(small.Keys, pos) == KeysWithout(big, n, Clockwise(big.Keys, pos))
  {
    var ks := Sorted(big.Keys);
    SortedWithout(big, small, n);
    FromWithout(big, n, ks, pos);
    BeforeWithout(big, n, ks, pos);
    KeysWithoutConcat(big, n, From(ks, pos), Before(ks, pos));
  }

  lemma PreferenceWithout(big: map<int, NodeId>, small: map<int, NodeId>, n: NodeId, pos: int)
    requires Overlays(big, small, n) && HidesNone(big, small, n)
    ensures Preference(small, pos) == Without(n, Preference(big, pos))
  {
    ClockwiseWithout(big, small, n, pos);
    WalkMembers(big.Keys, pos);
    AlongWithout(big, small, n, Clockwise(big.Keys, pos));
    DistinctWithout(n, Along(big, Clockwise(big.Keys, pos)));
  }

  /** Virtual nodes of different listed nodes have different positions. */
  ghost predicate CollisionFree(hash: string -> int, nodes: seq<NodeId>, replicas: int) {
    forall a, b, i, j :: (a in nodes && b in nodes && 0 <= i < replicas && 0 <= j < replicas
                          && hash(Label(a, i)) == hash(Label(b, j))) ==> a == b
  }

  /** A position on the ring belongs to a listed node that claims it. */
  lemma {:induction false} RingMember(hash: string -> int, nodes: seq<NodeId>, replicas: int, k: int)
    requires k in RingOf(hash, nodes, replicas)
    ensures var owner := RingOf(hash, nodes, replicas)[k];
            owner in nodes && exists i :: 0 <= i < replicas && hash(Label(owner, i)) == k
  {
    var front, x := nodes[..|nodes| - 1], nodes[|nodes| - 1];
    assert nodes == front + [x];
    if k in Points(hash, x, replicas) {
      assert RingOf(hash, nodes, replicas)[k] == x;
    } else {
      RingMember(hash, front, replicas, k);
    }
  }

  /** Replica lists are stable: with a collision-free hash, removing a node removes it from every
      preference list and changes nothing else, so every replica list keeps its surviving members. */
  lemma ReplicasStable(hash: string -> int, nodes: seq<NodeId>, n: NodeId, replicas: int, pos: int, count: int)
    requires CollisionFree(hash, nodes, replicas)
    ensures var old', new' := Preference(RingOf(hash, nodes, replicas), pos),
                              Preference(RingOf(hash, Without(n, nodes), replicas), pos);
            && new' == Without(n, old')
            && forall m :: m in Take(old', count) && m != n ==> m in Take(new', count)
  {
    var big, small := RingOf(hash, nodes, replicas), RingOf(hash, Without(n, nodes), replicas);
    RemoveOverlays(hash, nodes, n, replicas);
    forall k | k in small ensures k !in big || big[k] != n {
      if k in big {
        NothingHidden(hash, nodes, n, replicas, k);
      }
    }
    PreferenceWithout(big, small, n, pos);
    TakeSurvives(n, Preference(big, pos), count);
  }

  /** Without collisions a position that stays was not n's. */
  lemma {:induction false} NothingHidden(hash: string -> int, nodes: seq<NodeId>, n: NodeId, replicas: int, k: int)
    requires CollisionFree(hash, nodes, replicas)
    requires k in RingOf(hash, nodes, replicas) && k in RingOf(hash, Without(n, nodes), replicas)
    ensures RingOf(hash, nodes, replicas)[k] == RingOf(hash, Without(n, nodes), replicas)[k] != n
  {
    RingMember(hash, nodes, replicas, k);
    RingMember(hash, Without(n, nodes), replicas, k);
    WithoutMembers(n, nodes);
  }

  lemma {:induction false} TakeSurvives(n: NodeId, s: seq<NodeId>, count: int)
    ensures forall m :: m in Take(s, count) && m != n ==> m in Take(Without(n, s), count)
  {
    forall m | m in Take(s, count) && m != n ensures m in Take(Without(n, s), count) {
      TakeWithout(n, s, Max(0, Min(count, |s|)), m);
    }
  }

  lemma {:induction false} TakeWithout(n: NodeId, s: seq<NodeId>, count: nat, m: NodeId)
    requires count <= |s| && m in s[..count] && m != n
    ensures |Without(n, s[..count])| <= count && m in Without(n, s[..count])
    ensures Without(n, s[..count]) <= Without(n, s)
  {
    WithoutMembers(n, s[..count]);
    WithoutPrefix(n, s, count);
    WithoutShorter(n, s[..count]);
  }

  lemma {:induction false} WithoutShorter(n: NodeId, s: seq<NodeId>)
    ensures |Without(n, s)| <= |s|
  {
    if s != [] {
      WithoutShorter(n, s[..|s| - 1]);
    }
  }

  lemma {:induction false} WithoutPrefix(n: NodeId, s: seq<NodeId>, count: nat)
    requires count <= |s|
    ensures Without(n, s[..count]) <= Without(n, s)
  {
    if count < |s| {
      var front := s[..|s| - 1];
      WithoutPrefix(n, front, count);
      assert front[..count] == s[..count];
    } else {
      assert s[..count] == s;
    }
  }

  lemma {:induction false} OnePoint(hash: string -> int, nodes: seq<NodeId>, x: NodeId)
    ensures RingOf(hash, nodes + [x], 1) == RingOf(hash, nodes, 1)[hash(Label(x, 0)) := x]
  {
    RingOfMore(hash, nodes, x, 1);
    assert Points(hash, x, 1) == {hash(Label(x, 0))};
  }

  lemma CollidingRings(hash: string -> int, m: NodeId, c: NodeId, n: NodeId)
    requires hash(Label(m, 0)) == 1 && hash(Label(n, 0)) == 1 && hash(Label(c, 0)) == 2
    ensures RingOf(hash, [m, c], 1) == map[1 := m, 2 := c]
    ensures RingOf(hash, [m, c, n], 1) == map[1 := n, 2 := c]
  {
    OnePoint(hash, [], m);
    OnePoint(hash, [m], c);
    OnePoint(hash, [m, c], n);
    assert [] + [m] == [m] && [m] + [c] == [m, c] && [m, c] + [n] == [m, c, n];
    assert RingOf(hash, [m, c], 1) == map[1 := m, 2 := c];
  }

  /** Collisions do break it: a node that n hides comes to light when n leaves. */
  lemma HiddenNodeAppears(hash: string -> int, m: NodeId, c: NodeId, n: NodeId)
    requires m != c && m != n && c != n
    requires hash(Label(m, 0)) == 1 && hash(Label(n, 0)) == 1 && hash(Label(c, 0)) == 2
    ensures Preference(RingOf(hash, [m, c], 1), 0) != Without(n, Preference(RingOf(hash, [m, c, n], 1), 0))
  {
    var small, big := RingOf(hash, [m, c], 1), RingOf(hash, [m, c, n], 1);
    CollidingRings(hash, m, c, n);
    assert small[1] == m;
    assert m !in big.Values;
    Preferred(small, 0, m);
    Preferred(big, 0, m);
    WithoutMembers(n, Preference(big, 0));
  }

  lemma Preferred(ring: map<int, NodeId>, pos: int, m: NodeId)
    ensures m in Preference(ring, pos) <==> m in ring.Values
  {
    PreferenceFacts(ring, pos);
    assert m in Preference(ring, pos) <==> m in Elems(Preference(ring, pos));
  }

  // ---------------------------------------------------------------- the ring in place

  /** The list that both passes of the lookup walk along, which repeats the positions of the first. */
  ghost function TwoPasses(ring: map<int, NodeId>, keys: seq<int>, pos: int): seq<NodeId> {
    Along(ring, From(keys, pos) + keys)
  }

  lemma TwoPassesPrefer(ring: map<int, NodeId>, pos: int)
    ensures Distinct(TwoPasses(ring, Sorted(ring.Keys), pos)) == Preference(ring, pos)
  {
    var keys := Sorted(ring.Keys);
    var f, b := From(keys, pos), Before(keys, pos);
    SplitConcat(keys, pos);
    assert f + keys == (f + b) + f;
    AlongConcat(ring, f, b);
    AlongConcat(ring, f + b, f);
    DistinctAbsorbs(Along(ring, f + b), Along(ring, f));
  }

  /** The nodes found after i positions of the first pass, and after j positions of the second. */
  function FirstPass(ring: map<int, NodeId>, keys: seq<int>, pos: int, i: nat): seq<NodeId>
    requires i <= |keys|
  {
    Distinct(Along(ring, From(keys[..i], pos)))
  }

  function SecondPass(ring: map<int, NodeId>, keys: seq<int>, pos: int, j: nat): seq<NodeId>
    requires j <= |keys|
  {
    Distinct(Along(ring, From(keys, pos) + keys[..j]))
  }

  lemma {:induction false} FirstPassStep(ring: map<int, NodeId>, keys: seq<int>, pos: int, i: nat)
    requires i < |keys|
    ensures var f, x := FirstPass(ring, keys, pos, i), At(ring, keys[i]);
            FirstPass(ring, keys, pos, i + 1) == if pos <= keys[i] && x !in f then f + [x] else f
  {
    var f := From(keys[..i], pos);
    assert keys[..i + 1][..i] == keys[..i];
    if pos <= keys[i] {
      assert Along(ring, f + [keys[i]]) == Along(ring, f) + [At(ring, keys[i])];
      DistinctAppend(Along(ring, f), At(ring, keys[i]));
    } else {
      assert f + [] == f;
    }
  }

  lemma {:induction false} SecondPassStep(ring: map<int, NodeId>, keys: seq<int>, pos: int, j: nat)
    requires j < |keys|
    ensures var f, x := SecondPass(ring, keys, pos, j), At(ring, keys[j]);
            SecondPass(ring, keys, pos, j + 1) == if x !in f then f + [x] else f
  {
    var f := From(keys, pos);
    assert f + keys[..j + 1] == (f + keys[..j]) + [keys[j]];
    assert Along(ring, f + keys[..j + 1]) == Along(ring, f + keys[..j]) + [At(ring, keys[j])];
    DistinctAppend(Along(ring, f + keys[..j]), At(ring, keys[j]));
  }

  /** `keys` lists the positions of the ring. */
  ghost predicate Lists(keys: seq<int>, ring: map<int, NodeId>) {
    Ascending(keys) && forall k :: k in keys <==> k in ring.Keys
  }

  /** Both passes only ever extend what they have found, towards the preference list. */
  lemma {:induction false} SecondPassPrefers(ring: map<int, NodeId>, keys: seq<int>, pos: int, j: nat)
    requires Lists(keys, ring) && j <= |keys|
    ensures SecondPass(ring, keys, pos, j) <= Preference(ring, pos)
    ensures j == |keys| ==> SecondPass(ring, keys, pos, j) == Preference(ring, pos)
    decreases |keys| - j
  {
    if j == |keys| {
      assert keys[..j] == keys;
      AscendingUnique(keys, Sorted(ring.Keys));
      TwoPassesPrefer(ring, pos);
    } else {
      SecondPassPrefers(ring, keys, pos, j + 1);
      SecondPassStep(ring, keys, pos, j);
    }
  }

  lemma {:induction false} PassesMeet(ring: map<int, NodeId>, keys: seq<int>, pos: int)
    ensures FirstPass(ring, keys, pos, |keys|) == SecondPass(ring, keys, pos, 0)
  {
    assert keys[..|keys|] == keys && From(keys, pos) + keys[..0] == From(keys, pos);
  }

  lemma {:induction false} FirstPassPrefers(ring: map<int, NodeId>, keys: seq<int>, pos: int, i: nat)
    requires Lists(keys, ring) && i <= |keys|
    ensures FirstPass(ring, keys, pos, i) <= Preference(ring, pos)
    decreases |keys| - i
  {
    if i == |keys| {
      PassesMeet(ring, keys, pos);
      SecondPassPrefers(ring, keys, pos, 0);
    } else {
      FirstPassPrefers(ring, keys, pos, i + 1);
      FirstPassGrows(ring, keys, pos, i);
    }
  }

  lemma {:induction false} FirstPassGrows(ring: map<int, NodeId>, keys: seq<int>, pos: int, i: nat)
    requires Lists(keys, ring) && i < |keys|
    ensures FirstPass(ring, keys, pos, i) <= FirstPass(ring, keys, pos, i + 1)
  {
    FirstPassStep(ring, keys, pos, i);
  }

  /** What the lookup has found before each position of the first pass, all of it towards `goal`. */
  ghost predicate FirstTable(ring: map<int, NodeId>, keys: seq<int>, pos: int, goal: seq<NodeId>,
                             first: seq<seq<NodeId>>) {
    && |first| == |keys| + 1 && first[0] == []
    && (forall i :: 0 <= i < |keys| ==>
          first[i + 1] == if pos <= keys[i] && At(ring, keys[i]) !in first[i] then first[i] + [At(ring, keys[i])]
                          else first[i])
    && (forall i :: 0 <= i < |first| ==> first[i] <= goal)
  }

  /** The same for the second pass, which ends at `goal`. */
  ghost predicate SecondTable(ring: map<int, NodeId>, keys: seq<int>, goal: seq<NodeId>, second: seq<seq<NodeId>>) {
    && |second| == |keys| + 1 && second[|keys|] == goal
    && (forall j :: 0 <= j < |keys| ==>
          second[j + 1] == if At(ring, keys[j]) !in second[j] then second[j] + [At(ring, keys[j])] else second[j])
    && (forall j :: 0 <= j < |second| ==> second[j] <= goal)
  }

  lemma {:induction false} FirstTableOf(ring: map<int, NodeId>, keys: seq<int>, pos: int)
    returns (first: seq<seq<NodeId>>)
    requires Lists(keys, ring)
    ensures FirstTable(ring, keys, pos, Preference(ring, pos), first)
    ensures first[|keys|] == SecondPass(ring, keys, pos, 0)
  {
    first := seq(|keys| + 1, i requires 0 <= i <= |keys| => FirstPass(ring, keys, pos, i));
    var goal := Preference(ring, pos);
    forall i | 0 <= i < |first| ensures first[i] <= goal {
      FirstPassPrefers(ring, keys, pos, i);
    }
    FirstPassRow(ring, keys, pos, first);
    PassesMeet(ring, keys, pos);
  }

  lemma {:induction false} FirstPassRow(ring: map<int, NodeId>, keys: seq<int>, pos: int, first: seq<seq<NodeId>>)
    requires Lists(keys, ring) && |first| == |keys| + 1
    requires forall i :: 0 <= i < |first| ==> first[i] == FirstPass(ring, keys, pos, i)
    ensures first[0] == []
    ensures forall i :: 0 <= i < |keys| ==>
              first[i + 1] == if pos <= keys[i] && At(ring, keys[i]) !in first[i] then first[i] + [At(ring, keys[i])]
                              else first[i]
  {
    forall i | 0 <= i < |keys|
      ensures first[i + 1] == if pos <= keys[i] && At(ring, keys[i]) !in first[i] then first[i] + [At(ring, keys[i])]
                              else first[i]
    {
      FirstPassStep(ring, keys, pos, i);
    }
  }

  lemma {:induction false} SecondTableOf(ring: map<int, NodeId>, keys: seq<int>, pos: int)
    returns (second: seq<seq<NodeId>>)
    requires Lists(keys, ring)
    ensures SecondTable(ring, keys, Preference(ring, pos), second)
    ensures second[0] == SecondPass(ring, keys, pos, 0)
  {
    second := seq(|keys| + 1, j requires 0 <= j <= |keys| => SecondPass(ring, keys, pos, j));
    forall j | 0 <= j < |second| ensures second[j] <= Preference(ring, pos) {
      SecondPassPrefers(ring, keys, pos, j);
    }
    forall j | 0 <= j < |keys|
      ensures second[j + 1] == if At(ring, keys[j]) !in second[j] then second[j] + [At(ring, keys[j])] else second[j]
    {
      SecondPassStep(ring, keys, pos, j);
    }
    SecondPassPrefers(ring, keys, pos, |keys|);
  }

  /** Stands for Python's sorted(). */
  method SortKeys(s: set<int>) returns (r: seq<int>)
    ensures Ascending(r) && forall x :: x in r <==> x in s
  {
    r := Sorted(s);
  }

  /** Python's s[:count], where a negative count leaves out that many elements at the end. */
  function Slice<T>(s: seq<T>, count: int): seq<T> {
    if count >= 0 then s[..Min(count, |s|)] else s[..Max(0, |s| + count)]
  }

  lemma SliceTakes(found: seq<NodeId>, all: seq<NodeId>, count: int)
    requires found <= all && |found| <= Max(count, 1) && (|found| >= count || found == all)
    ensures Slice(found, count) == Take(all, count)
  {
  }

  /** One more virtual node. */
  lemma ClaimStep(hash: string -> int, ring: map<int, NodeId>, node: NodeId, i: nat)
    ensures Claim(hash, ring, node, i)[hash(Label(node, i)) := node] == Claim(hash, ring, node, i + 1)
  {
    var h := hash(Label(node, i));
    assert Points(hash, node, i + 1) == Points(hash, node, i) + {h};
    OverlaySameNode(ring, Points(hash, node, i), h, node);
  }

  lemma ClaimAll(hash: string -> int, ring: map<int, NodeId>, node: NodeId, i: int, replicas: int)
    requires i == Max(0, replicas)
    ensures Claim(hash, ring, node, i) == Claim(hash, ring, node, replicas)
  {
    assert Points(hash, node, i) == Points(hash, node, replicas);
  }

  /** All virtual nodes of one more node. */
  lemma {:induction false} BuiltMore(hash: string -> int, nodes: seq<NodeId>, n: nat, replicas: int, i: int)
    requires n < |nodes| && i == Max(0, replicas)
    ensures Claim(hash, RingOf(hash, nodes[..n], replicas), nodes[n], i) == RingOf(hash, nodes[..n + 1], replicas)
  {
    ClaimAll(hash, RingOf(hash, nodes[..n], replicas), nodes[n], i, replicas);
    RingOfMore(hash, nodes[..n], nodes[n], replicas);
    assert nodes[..n + 1] == nodes[..n] + [nodes[n]];
  }

  lemma OverlaySameNode(ring: map<int, NodeId>, points: set<int>, h: int, node: NodeId)
    ensures (ring + map p | p in points :: node)[h := node] == ring + map p | p in points + {h} :: node
  {
  }

  class ConsistentHashRing {
    const nodes: seq<NodeId>
    const replicas: int
    const hash: string -> int
    var ring: map<int, NodeId>

    ghost predicate Valid()
      reads this
    {
      ring == RingOf(hash, nodes, replicas)
    }

    constructor (nodes: seq<NodeId>, replicas: int, hash: string -> int)
      ensures Valid() && this.nodes == nodes && this.replicas == replicas && this.hash == hash
    {
      this.nodes, this.replicas, this.hash := nodes, replicas, hash;
      ring := map[];
      new;
      BuildRing();
    }

    method BuildRing()
      modifies this
      ensures Valid()
    {
      ring := map[];
      var n := 0;
      while n < |nodes|
        invariant 0 <= n <= |nodes|
        invariant ring == RingOf(hash, nodes[..n], replicas)
      {
        var node := nodes[n];
        ghost var before := ring;
        var i := 0;
        while i < replicas
          invariant 0 <= i <= Max(0, replicas)
          invariant ring == Claim(hash, before, node, i)
        {
          ClaimStep(hash, before, node, i);
          ring := ring[hash(Label(node, i)) := node];
          i := i + 1;
        }
        BuiltMore(hash, nodes, n, replicas, i);
        n := n + 1;
      }
      assert nodes[..n] == nodes;
    }

    /** None stands for the error raised on an empty ring. */
    method GetNode(key: string) returns (node: Option<NodeId>)
      requires Valid()
      ensures node.None? <==> ring == map[]
      ensures node.Some? ==> Owns(ring, hash(key), node.value)
    {
      if ring == map[] {
        return None;
      }
      var pos := hash(key);
      var keys := SortKeys(ring.Keys);
      var i := 0;
      while i < |keys|
        invariant 0 <= i <= |keys|
        invariant forall j :: 0 <= j < i ==> keys[j] < pos
      {
        if pos <= keys[i] {
          assert keys[i] in keys;
          assert Successor(ring.Keys, pos, keys[i]) by {
            forall k | k in ring.Keys && pos <= k ensures keys[i] <= k {
              assert k in keys;
            }
          }
          assert At(ring, keys[i]) == ring[keys[i]];
          return Some(ring[keys[i]]);
        }
        i := i + 1;
      }
      assert keys != [] by {
        var k := Member(ring.Keys);
        assert k in keys;
      }
      assert keys[0] in keys;
      assert Successor(ring.Keys, pos, keys[0]) by {
        forall k | k in ring.Keys ensures k < pos && keys[0] <= k {
          assert k in keys;
        }
      }
      assert At(ring, keys[0]) == ring[keys[0]];
      return Some(ring[keys[0]]);
    }

    /** The first `count` distinct nodes met walking clockwise from the key. */
    method GetNodes(key: string, count: int) returns (r: seq<NodeId>)
      requires Valid()
      ensures r == Take(Preference(ring, hash(key)), count)
    {
      var pos := hash(key);
      PreferenceFacts(ring, pos);
      if ring == map[] {
        return [];
      }
      var keys := SortKeys(ring.Keys);
      ghost var first := FirstTableOf(ring, keys, pos);
      ghost var second := SecondTableOf(ring, keys, pos);
      r := WalkTwice(keys, pos, count, Preference(ring, pos), first, second);
    }

    /** The two passes over the sorted positions, from the key's on and then from the start. */
    method WalkTwice(keys: seq<int>, pos: int, count: int, ghost goal: seq<NodeId>,
                     ghost first: seq<seq<NodeId>>, ghost second: seq<seq<NodeId>>) returns (r: seq<NodeId>)
      requires forall k :: k in keys ==> k in ring
      requires FirstTable(ring, keys, pos, goal, first) && SecondTable(ring, keys, goal, second)
      requires first[|keys|] == second[0]
      ensures r == Take(goal, count)
    {
      var found: seq<NodeId>, seen: set<NodeId> := [], {};
      var i := 0;
      while i < |keys|
        invariant 0 <= i <= |keys|
        invariant found == first[i] && forall x :: x in seen <==> x in found
        invariant found == [] || |found| < count
      {
        var k := keys[i];
        i := i + 1;
        if pos <= k {
          assert k in keys;
          var node := ring[k];
          if node !in seen {
            found, seen := found + [node], seen + {node};
            if |found| >= count {
              break;
            }
          }
        }
      }
      assert first[i] <= goal;
      var j := 0;
      while j < |keys|
        invariant 0 <= j <= |keys|
        invariant found <= goal && forall x :: x in seen <==> x in found
        invariant |found| >= count || found == second[j]
        invariant |found| <= Max(count, 1)
      {
        if |found| >= count {
          break;
        }
        var k := keys[j];
        assert k in keys;
        var node := ring[k];
        if node !in seen {
          found, seen := found + [node], seen + {node};
        }
        j := j + 1;
        assert second[j] <= goal;
      }
      SliceTakes(found, goal, count);
      return Slice(found, count);
    }
  }
}
