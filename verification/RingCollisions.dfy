/** Replica lists when positions on the ring collide: exactly when removing a node still only filters it
    out of every preference list. */
module RingCollisions {
  import opened Prelude
  import opened HashRings

  // ---------------------------------------------------------------- inserting a repeated node

  /** A node inserted right before itself, or after it, is met no earlier. */
  lemma {:induction false} DistinctInsert(p: seq<NodeId>, x: NodeId, s: seq<NodeId>)
    requires x in p || (s != [] && s[0] == x)
    ensures Distinct(p + [x] + s) == Distinct(p + s)
    decreases |s|
  {
    DistinctFacts(p);
    if s == [] {
      DistinctAppend(p, x);
      assert p + [x] + s == p + [x] && p + s == p;
    } else {
      var front, y := s[..|s| - 1], s[|s| - 1];
      assert p + [x] + s == (p + [x] + front) + [y] && p + s == (p + front) + [y];
      DistinctAppend(p + [x] + front, y);
      DistinctAppend(p + front, y);
      if front == [] && x !in p {
        assert p + [x] + front == p + [x] && p + front == p;
        DistinctFacts(p + [x]);
      } else {
        DistinctInsert(p, x, front);
      }
    }
  }

  lemma {:induction false} FromBeforeConcat(a: seq<int>, b: seq<int>, pos: int)
    ensures From(a + b, pos) == From(a, pos) + From(b, pos)
    ensures Before(a + b, pos) == Before(a, pos) + Before(b, pos)
    decreases |b|
  {
    if b == [] {
      assert a + b == a;
    } else {
      var front, k := b[..|b| - 1], b[|b| - 1];
      FromBeforeConcat(a, front, pos);
      assert a + b == (a + front) + [k] && b == front + [k];
      ConcatMore(a, front, pos, k);
    }
  }

  lemma {:induction false} ConcatMore(a: seq<int>, b: seq<int>, pos: int, k: int)
    requires From(a + b, pos) == From(a, pos) + From(b, pos) && Before(a + b, pos) == Before(a, pos) + Before(b, pos)
    ensures From((a + b) + [k], pos) == From(a, pos) + From(b + [k], pos)
    ensures Before((a + b) + [k], pos) == Before(a, pos) + Before(b + [k], pos)
  {
    SplitMore(a + b, pos, k);
    SplitMore(b, pos, k);
    Regroup(From(a, pos), From(b, pos), if pos <= k then [k] else []);
    Regroup(Before(a, pos), Before(b, pos), if pos <= k then [] else [k]);
  }

  /** All positions ahead, or none. */
  lemma {:induction false} AllFrom(keys: seq<int>, pos: int)
    requires forall i :: 0 <= i < |keys| ==> pos <= keys[i]
    ensures From(keys, pos) == keys && Before(keys, pos) == []
    decreases |keys|
  {
    if keys != [] {
      var front, k := Unsnoc(keys);
      assert keys[|front|] == k && forall i :: 0 <= i < |front| ==> front[i] == keys[i];
      AllFrom(front, pos);
      SplitMore(front, pos, k);
    }
  }

  lemma {:induction false} AllBefore(keys: seq<int>, pos: int)
    requires forall i :: 0 <= i < |keys| ==> keys[i] < pos
    ensures From(keys, pos) == [] && Before(keys, pos) == keys
    decreases |keys|
  {
    if keys != [] {
      var front, k := Unsnoc(keys);
      assert keys[|front|] == k && forall i :: 0 <= i < |front| ==> front[i] == keys[i];
      AllBefore(front, pos);
      SplitMore(front, pos, k);
    }
  }

  // ---------------------------------------------------------------- inserting a position

  lemma {:induction false} SortedInsert(keys: set<int>, h: int)
    requires h !in keys
    ensures Sorted(keys + {h}) == Before(Sorted(keys), h) + [h] + From(Sorted(keys), h)
  {
    var ks := Sorted(keys);
    var a, b := Before(ks, h), From(ks, h);
    var r := a + [h] + b;
    SplitMembers(ks, h);
    SplitAscending(ks, h);
    Sides(ks, h);
    forall i | 0 <= i < |b| ensures h < b[i] {
      assert b[i] in b;
    }
    assert forall x :: x in r <==> x in a || x == h || x in b;
    assert Ascending(r);
    AscendingUnique(Sorted(keys + {h}), r);
  }

  lemma {:induction false} PartsAhead(a: seq<int>, b: seq<int>, pos: int)
    requires forall i :: 0 <= i < |b| ==> pos <= b[i]
    ensures From(a + b, pos) == From(a, pos) + b && Before(a + b, pos) == Before(a, pos)
  {
    FromBeforeConcat(a, b, pos);
    AllFrom(b, pos);
    assert Before(a, pos) + [] == Before(a, pos);
  }

  lemma {:induction false} PartsBehind(a: seq<int>, b: seq<int>, pos: int)
    requires forall i :: 0 <= i < |a| ==> a[i] < pos
    ensures From(a + b, pos) == From(b, pos) && Before(a + b, pos) == a + Before(b, pos)
  {
    FromBeforeConcat(a, b, pos);
    AllBefore(a, pos);
    assert [] + From(b, pos) == From(b, pos);
  }

  /** h comes in among the positions from pos on, between a and b. */
  lemma {:induction false} WalkInsertAhead(a: seq<int>, b: seq<int>, h: int, pos: int)
    requires pos <= h && forall i :: 0 <= i < |b| ==> h <= b[i]
    ensures From(a + b, pos) + Before(a + b, pos) == From(a, pos) + (b + Before(a, pos))
    ensures From(a + [h] + b, pos) + Before(a + [h] + b, pos) == From(a, pos) + [h] + (b + Before(a, pos))
  {
    PartsAhead(a, b, pos);
    PartsAhead(a + [h], b, pos);
    PartsAhead(a, [h], pos);
    Regroup(From(a, pos), b, Before(a, pos));
    Regroup(From(a, pos) + [h], b, Before(a, pos));
  }

  /** h comes in among the positions before pos. */
  lemma {:induction false} WalkInsertBehind(a: seq<int>, b: seq<int>, h: int, pos: int)
    requires h < pos && forall i :: 0 <= i < |a| ==> a[i] < h
    ensures From(a + b, pos) + Before(a + b, pos) == (From(b, pos) + a) + Before(b, pos)
    ensures From(a + [h] + b, pos) + Before(a + [h] + b, pos) == (From(b, pos) + a) + [h] + Before(b, pos)
  {
    PartsBehind(a, b, pos);
    PartsBehind(a + [h], b, pos);
    Regroup(From(b, pos), a, Before(b, pos));
    Regroup(From(b, pos), a, [h]);
    Regroup(From(b, pos), a + [h], Before(b, pos));
  }

  /** A walk with h is the walk without it, cut where h comes in: before its successor, or at the end when
      the walk started with the successor. */
  lemma {:induction false} WalkInsert(keys: set<int>, h: int, pos: int) returns (p: seq<int>, s: seq<int>)
    requires h !in keys && keys != {}
    ensures Clockwise(keys, pos) == p + s && Clockwise(keys + {h}, pos) == p + [h] + s
    ensures Clockwise(keys, h) != []
    ensures if s != [] then s[0] == Clockwise(keys, h)[0] else p != [] && p[0] == Clockwise(keys, h)[0]
  {
    var ks := Sorted(keys);
    var a, b := Before(ks, h), From(ks, h);
    SortedInsert(keys, h);
    SplitConcat(ks, h);
    Sides(ks, h);
    WalkStartsAtSuccessor(keys, h);
    SplitAscending(ks, h);
    p, s := CutWalk(a, b, h, pos);
  }

  lemma {:induction false} CutWalk(a: seq<int>, b: seq<int>, h: int, pos: int) returns (p: seq<int>, s: seq<int>)
    requires Ascending(a) && Ascending(b) && b + a != []
    requires forall i :: 0 <= i < |a| ==> a[i] < h
    requires forall i :: 0 <= i < |b| ==> h <= b[i]
    ensures From(a + b, pos) + Before(a + b, pos) == p + s
    ensures From(a + [h] + b, pos) + Before(a + [h] + b, pos) == p + [h] + s
    ensures if s != [] then s[0] == (b + a)[0] else p != [] && p[0] == (b + a)[0]
  {
    if pos <= h {
      WalkInsertAhead(a, b, h, pos);
      SplitConcat(a, pos);
      p, s := From(a, pos), b + Before(a, pos);
    } else {
      WalkInsertBehind(a, b, h, pos);
      SplitConcat(b, pos);
      p, s := From(b, pos) + a, Before(b, pos);
    }
  }

  lemma AlongInsert(ring: map<int, NodeId>, h: int, x: NodeId, p: seq<int>, s: seq<int>)
    requires h !in p && h !in s
    ensures Along(ring[h := x], p + [h] + s) == Along(ring, p) + [x] + Along(ring, s)
  {
    assert forall i :: 0 <= i < |p| ==> p[i] in p;
    assert forall i :: 0 <= i < |s| ==> s[i] in s;
  }

  lemma OwnerIsFirst(ring: map<int, NodeId>, pos: int, x: NodeId)
    ensures Owns(ring, pos, x) <==> Preference(ring, pos) != [] && Preference(ring, pos)[0] == x
  {
    PreferenceFacts(ring, pos);
    if Owns(ring, pos, x) {
      assert ring != map[];
      OwnerUnique(ring, pos, x, Preference(ring, pos)[0]);
    }
    if Preference(ring, pos) != [] {
      assert Preference(ring, pos)[0] in Elems(Preference(ring, pos));
    }
  }

  lemma FirstMet(ring: map<int, NodeId>, pos: int, x: NodeId)
    requires Owns(ring, pos, x)
    ensures Clockwise(ring.Keys, pos) != [] && At(ring, Clockwise(ring.Keys, pos)[0]) == x
  {
    WalkStartsAtSuccessor(ring.Keys, pos);
    var k :| Successor(ring.Keys, pos, k) && At(ring, k) == x;
    SuccessorUnique(ring.Keys, pos, k, Clockwise(ring.Keys, pos)[0]);
  }

  /** A new position for the node that owns it already changes no preference list. */
  lemma InsertSame(ring: map<int, NodeId>, h: int, x: NodeId, pos: int)
    requires h !in ring && Owns(ring, h, x)
    ensures Preference(ring[h := x], pos) == Preference(ring, pos)
  {
    var p, s := RingWalkInsert(ring, h, x, pos);
    AlongSame(ring, h, x, p, s);
  }

  lemma RingWalkInsert(ring: map<int, NodeId>, h: int, x: NodeId, pos: int) returns (p: seq<int>, s: seq<int>)
    requires h !in ring && Owns(ring, h, x)
    ensures Clockwise(ring.Keys, pos) == p + s && Clockwise(ring[h := x].Keys, pos) == p + [h] + s
    ensures h !in p + s
    ensures if s != [] then At(ring, s[0]) == x else p != [] && At(ring, p[0]) == x
  {
    p, s := WalkInsert(ring.Keys, h, pos);
    FirstMet(ring, h, x);
    NotWalked(ring.Keys, pos, h);
    assert ring[h := x].Keys == ring.Keys + {h};
  }

  lemma NotWalked(keys: set<int>, pos: int, h: int)
    requires h !in keys
    ensures h !in Clockwise(keys, pos)
  {
    WalkMembers(keys, pos);
  }

  lemma {:induction false} AlongSame(ring: map<int, NodeId>, h: int, x: NodeId, p: seq<int>, s: seq<int>)
    requires h !in p + s
    requires if s != [] then At(ring, s[0]) == x else p != [] && At(ring, p[0]) == x
    ensures Distinct(Along(ring[h := x], p + [h] + s)) == Distinct(Along(ring, p + s))
  {
    AlongInsert(ring, h, x, p, s);
    AlongConcat(ring, p, s);
    RepeatMet(ring, p, s, x);
    DistinctInsert(Along(ring, p), x, Along(ring, s));
  }

  lemma RepeatMet(ring: map<int, NodeId>, p: seq<int>, s: seq<int>, x: NodeId)
    requires if s != [] then At(ring, s[0]) == x else p != [] && At(ring, p[0]) == x
    ensures x in Along(ring, p) || (Along(ring, s) != [] && Along(ring, s)[0] == x)
  {
    if s == [] {
      assert Along(ring, p)[0] == x;
    }
  }

  lemma OwnerStays(ring: map<int, NodeId>, h: int, x: NodeId, pos: int, y: NodeId)
    requires h !in ring && Owns(ring, h, x) && Owns(ring, pos, y)
    ensures Owns(ring[h := x], pos, y)
  {
    InsertSame(ring, h, x, pos);
    OwnerIsFirst(ring, pos, y);
    OwnerIsFirst(ring[h := x], pos, y);
  }

  lemma {:induction false} OneBack<K, V>(ring: map<K, V>, hs: set<K>, h: K)
    requires h in ring && h in hs
    ensures (ring - hs)[h := ring[h]] == ring - (hs - {h})
  {
  }

  /** Nor do the many positions hs, where each belongs to the node that owns it without them. */
  lemma {:induction false} InsertAllSame(ring: map<int, NodeId>, hs: set<int>, pos: int)
    requires hs <= ring.Keys && forall h :: h in hs ==> Owns(ring - hs, h, ring[h])
    ensures Preference(ring, pos) == Preference(ring - hs, pos)
    decreases |hs|
  {
    if hs == {} {
      assert ring - hs == ring;
    } else {
      var h := Member(hs);
      InsertSame(ring - hs, h, ring[h], pos);
      OneBack(ring, hs, h);
      forall k | k in hs - {h} ensures Owns(ring - (hs - {h}), k, ring[k]) {
        OwnerStays(ring - hs, h, ring[h], k, ring[k]);
      }
      InsertAllSame(ring, hs - {h}, pos);
    }
  }

  // ---------------------------------------------------------------- removing a node

  /** The positions of the small ring that n takes over in the big one. */
  function Hidden(big: map<int, NodeId>, small: map<int, NodeId>, n: NodeId): set<int> {
    set k | k in small && k in big && big[k] == n
  }

  /** Without them the small ring is the big one without n. */
  lemma VisibleFilters(big: map<int, NodeId>, small: map<int, NodeId>, n: NodeId, pos: int)
    requires Overlays(big, small, n)
    ensures Preference(small - Hidden(big, small, n), pos) == Without(n, Preference(big, pos))
  {
    PreferenceWithout(big, small - Hidden(big, small, n), n, pos);
  }

  /** Wherever n hides a node, the next node clockwise other than n is the hidden one. */
  ghost predicate HidesTheNext(big: map<int, NodeId>, small: map<int, NodeId>, n: NodeId) {
    forall k :: k in Hidden(big, small, n) ==> Owns(small - Hidden(big, small, n), k, small[k])
  }

  lemma OwnsItself(ring: map<int, NodeId>, k: int)
    requires k in ring
    ensures Owns(ring, k, ring[k])
  {
    assert Successor(ring.Keys, k, k) && At(ring, k) == ring[k];
  }

  lemma {:induction false} FiltersIff(big: map<int, NodeId>, small: map<int, NodeId>, n: NodeId)
    requires Overlays(big, small, n)
    ensures (forall pos :: Preference(small, pos) == Without(n, Preference(big, pos))) <==> HidesTheNext(big, small, n)
  {
    var visible := small - Hidden(big, small, n);
    if HidesTheNext(big, small, n) {
      forall pos ensures Preference(small, pos) == Without(n, Preference(big, pos)) {
        VisibleFilters(big, small, n, pos);
        InsertAllSame(small, Hidden(big, small, n), pos);
      }
    }
    if forall pos :: Preference(small, pos) == Without(n, Preference(big, pos)) {
      forall k | k in Hidden(big, small, n) ensures Owns(visible, k, small[k]) {
        OwnsItself(small, k);
        OwnerIsFirst(small, k, small[k]);
        VisibleFilters(big, small, n, k);
        OwnerIsFirst(visible, k, small[k]);
      }
    }
  }

  /** The exact condition, for any hash: removing n filters it out of the preference list of every position
      and changes nothing else if and only if n hides only nodes that come next anyway. */
  lemma RemovalFiltersIff(hash: string -> int, nodes: seq<NodeId>, n: NodeId, replicas: int)
    ensures var big, small := RingOf(hash, nodes, replicas), RingOf(hash, Without(n, nodes), replicas);
            (forall pos :: Preference(small, pos) == Without(n, Preference(big, pos))) <==> HidesTheNext(big, small, n)
  {
    RemoveOverlays(hash, nodes, n, replicas);
    FiltersIff(RingOf(hash, nodes, replicas), RingOf(hash, Without(n, nodes), replicas), n);
  }
}
