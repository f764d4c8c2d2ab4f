/** When the detector's reports are exact. A release keeps the edges of the graph, so an edge may outlive
    the wait that put it there. Such an edge does no harm while a chain of present waits still leads from
    its one end to the other. */
module DeadlockReports {
  import opened Prelude
  import opened DeadlockDetection

  /** The graph has a cycle just when nodes wait for one another in a circle. */
  ghost predicate Exact(t: Tables) {
    Cyclic(t.graph) <==> CircularWait(t)
  }

  // ---------------------------------------------------------------- chains of waits

  ghost predicate WaitPath(t: Tables, w: seq<NodeId>, a: NodeId, b: NodeId) {
    && |w| >= 2 && w[0] == a && w[|w| - 1] == b
    && forall i :: 0 <= i < |w| - 1 ==> WaitsFor(t, w[i], w[i + 1])
  }

  ghost predicate Reaches(t: Tables, a: NodeId, b: NodeId) {
    exists w :: WaitPath(t, w, a, b)
  }

  /** Each edge still stands for a chain of present waits. */
  ghost predicate Covered(t: Tables) {
    forall a, b :: Edge(t.graph, a, b) ==> Reaches(t, a, b)
  }

  lemma OneWait(t: Tables, a: NodeId, b: NodeId)
    requires WaitsFor(t, a, b)
    ensures Reaches(t, a, b)
  {
    assert WaitPath(t, [a, b], a, b);
  }

  lemma Chain(t: Tables, a: NodeId, b: NodeId, c: NodeId)
    requires Reaches(t, a, b) && Reaches(t, b, c)
    ensures Reaches(t, a, c)
  {
    var v :| WaitPath(t, v, a, b);
    var w :| WaitPath(t, w, b, c);
    var x := v + w[1..];
    forall i | 0 <= i < |x| - 1 ensures WaitsFor(t, x[i], x[i + 1]) {
      if i >= |v| - 1 {
        assert x[i] == w[i - |v| + 1] && x[i + 1] == w[i - |v| + 2];
      }
    }
    assert WaitPath(t, x, a, c);
  }

  lemma {:induction false} ChainAll(t: Tables, w: seq<NodeId>)
    requires |w| >= 2 && forall i :: 0 <= i < |w| - 1 ==> Reaches(t, w[i], w[i + 1])
    ensures Reaches(t, w[0], w[|w| - 1])
  {
    var front := w[..|w| - 1];
    assert Reaches(t, w[|w| - 2], w[|w| - 2 + 1]);
    if |w| > 2 {
      forall i | 0 <= i < |front| - 1 ensures Reaches(t, front[i], front[i + 1]) {
        assert Reaches(t, w[i], w[i + 1]);
      }
      ChainAll(t, front);
      Chain(t, w[0], w[|w| - 2], w[|w| - 1]);
    }
  }

  lemma CircleReaches(t: Tables)
    ensures CircularWait(t) <==> exists a :: Reaches(t, a, a)
  {
    if CircularWait(t) {
      var w :| WaitCircle(t, w);
      assert WaitPath(t, w, w[0], w[0]);
      assert Reaches(t, w[0], w[0]);
    }
    if a :| Reaches(t, a, a) {
      var w :| WaitPath(t, w, a, a);
      assert WaitCircle(t, w);
    }
  }

  // ---------------------------------------------------------------- covered graphs report exactly

  lemma CoveredExact(t: Tables)
    requires Recorded(t) && Covered(t)
    ensures Exact(t)
  {
    CircleIsCycle(t);
    if Cyclic(t.graph) {
      var w :| ClosedWalk(t.graph, w);
      forall i | 0 <= i < |w| - 1 ensures Reaches(t, w[i], w[i + 1]) {
        assert Edge(t.graph, w[i], w[i + 1]);
      }
      ChainAll(t, w);
      CircleReaches(t);
    }
  }

  /** A request keeps all waits. */
  lemma AcquireKeepsWait(t: Tables, node: NodeId, lock: string, a: NodeId, b: NodeId)
    requires WaitsFor(t, a, b)
    ensures WaitsFor(Acquire(t, node, lock), a, b)
  {
    var l :| WaitsOn(t, a, b, l);
    assert WaitsOn(Acquire(t, node, lock), a, b, l);
  }

  lemma AcquireKeepsChain(t: Tables, node: NodeId, lock: string, a: NodeId, b: NodeId)
    requires Reaches(t, a, b)
    ensures Reaches(Acquire(t, node, lock), a, b)
  {
    var w :| WaitPath(t, w, a, b);
    forall i | 0 <= i < |w| - 1 ensures WaitsFor(Acquire(t, node, lock), w[i], w[i + 1]) {
      AcquireKeepsWait(t, node, lock, w[i], w[i + 1]);
    }
    assert WaitPath(Acquire(t, node, lock), w, a, b);
  }

  lemma AcquireKeepsCovered(t: Tables, node: NodeId, lock: string)
    requires Covered(t)
    ensures Covered(Acquire(t, node, lock))
  {
    var u := Acquire(t, node, lock);
    forall a, b | Edge(u.graph, a, b) ensures Reaches(u, a, b) {
      if Edge(t.graph, a, b) {
        AcquireKeepsChain(t, node, lock, a, b);
      } else {
        assert WaitsOn(u, a, b, lock);
        OneWait(u, a, b);
      }
    }
  }

  lemma AcquireKeepsCircle(t: Tables, node: NodeId, lock: string)
    requires CircularWait(t)
    ensures CircularWait(Acquire(t, node, lock))
  {
    CircleReaches(t);
    var a :| Reaches(t, a, a);
    AcquireKeepsChain(t, node, lock, a, a);
    CircleReaches(Acquire(t, node, lock));
  }

  // ---------------------------------------------------------------- releases

  /** The guard: each waiter of the lock still reaches its holder through waits on other locks, which
      are the waits that remain. In particular it holds when no one waits for the lock. */
  ghost predicate StillReached(t: Tables, lock: string) {
    lock in t.holders && lock in t.waiters ==>
      forall a :: a in t.waiters[lock] ==> Reaches(Release(t, lock), a, t.holders[lock])
  }

  lemma ReleaseKeepsWait(t: Tables, lock: string, a: NodeId, b: NodeId)
    requires WaitsFor(t, a, b) && StillReached(t, lock)
    ensures Reaches(Release(t, lock), a, b)
  {
    var l :| WaitsOn(t, a, b, l);
    if l != lock {
      assert WaitsOn(Release(t, lock), a, b, l);
      OneWait(Release(t, lock), a, b);
    }
  }

  /** A release keeps the graph covered if and only if the guard holds. */
  lemma ReleaseStaysCoveredIff(t: Tables, lock: string)
    requires Recorded(t) && Covered(t)
    ensures Covered(Release(t, lock)) <==> StillReached(t, lock)
  {
    var u := Release(t, lock);
    if StillReached(t, lock) {
      forall a, b | Edge(u.graph, a, b) ensures Reaches(u, a, b) {
        assert Edge(t.graph, a, b);
        var w :| WaitPath(t, w, a, b);
        forall i | 0 <= i < |w| - 1 ensures Reaches(u, w[i], w[i + 1]) {
          ReleaseKeepsWait(t, lock, w[i], w[i + 1]);
        }
        ChainAll(u, w);
      }
    }
    if Covered(u) && lock in t.holders && lock in t.waiters {
      forall a | a in t.waiters[lock] ensures Reaches(u, a, t.holders[lock]) {
        assert WaitsOn(t, a, t.holders[lock], lock);
        assert Edge(u.graph, a, t.holders[lock]);
      }
    }
  }

  /** Every release of the run satisfies the guard. */
  ghost predicate CleanReleases(rs: seq<Request>) {
    rs == [] ||
    (CleanReleases(rs[..|rs| - 1])
     && (rs[|rs| - 1].ReleaseReq? ==> StillReached(ServeAll(rs[..|rs| - 1]), rs[|rs| - 1].lock)))
  }

  lemma {:induction false} CleanRunsCovered(rs: seq<Request>)
    requires CleanReleases(rs)
    ensures Covered(ServeAll(rs))
  {
    if rs != [] {
      var front, r := rs[..|rs| - 1], rs[|rs| - 1];
      CleanRunsCovered(front);
      ServeAllRecords(front);
      if r.AcquireReq? {
        AcquireKeepsCovered(ServeAll(front), r.node, r.lock);
      } else {
        ReleaseStaysCoveredIff(ServeAll(front), r.lock);
      }
    }
  }

  /** In runs whose releases are clean, release-free ones among them, the graph is cyclic exactly when
      there is a circular wait. */
  lemma {:induction false} CycleIsCircularWait(rs: seq<Request>)
    requires CleanReleases(rs)
    ensures Cyclic(ServeAll(rs).graph) <==> CircularWait(ServeAll(rs))
  {
    ServeAllRecords(rs);
    CleanRunsCovered(rs);
    CoveredExact(ServeAll(rs));
  }

  /** In such runs the detector finds a cycle if and only if the requests have led to a deadlock. */
  lemma {:induction false} CycleIsDeadlock(rs: seq<Request>)
    requires CleanReleases(rs)
    ensures Cyclic(ServeAll(rs).graph) <==> Deadlocked(rs)
  {
    CycleIsCircularWait(rs);
    DeadlockIff(rs);
  }

  ghost predicate AcquireOnly(rs: seq<Request>) {
    forall i :: 0 <= i < |rs| ==> rs[i].AcquireReq?
  }

  lemma {:induction false} ReleaseFreeIsClean(rs: seq<Request>)
    requires AcquireOnly(rs)
    ensures CleanReleases(rs)
  {
    if rs != [] {
      ReleaseFreeIsClean(rs[..|rs| - 1]);
    }
  }

  // ---------------------------------------------------------------- uncovered graphs do not

  /** Waits of u are waits of t, save that b may also wait for a. A chain of them either is one of t or
      leads to b and on from a. */
  lemma {:induction false} ChainOrDetour(t: Tables, u: Tables, a: NodeId, b: NodeId, w: seq<NodeId>)
    requires forall x, y :: WaitsFor(u, x, y) ==> WaitsFor(t, x, y) || (x == b && y == a)
    requires |w| >= 2 && WaitPath(u, w, w[0], w[|w| - 1])
    ensures var x, y := w[0], w[|w| - 1];
            Reaches(t, x, y) || ((x == b || Reaches(t, x, b)) && (y == a || Reaches(t, a, y)))
  {
    var x, z, y := w[0], w[|w| - 2], w[|w| - 1];
    assert WaitsFor(u, w[|w| - 2], w[|w| - 2 + 1]);
    if WaitsFor(t, z, y) {
      OneWait(t, z, y);
    }
    if |w| > 2 {
      var front := w[..|w| - 1];
      forall i | 0 <= i < |front| - 1 ensures WaitsFor(u, front[i], front[i + 1]) {
        assert WaitsFor(u, w[i], w[i + 1]);
      }
      assert WaitPath(u, front, x, z);
      ChainOrDetour(t, u, a, b, front);
      if WaitsFor(t, z, y) {
        if Reaches(t, x, z) {
          Chain(t, x, z, y);
        } else if z != a {
          Chain(t, a, z, y);
        }
      }
    }
  }

  /** a takes a free lock and b asks for it: b now waits for a, and nothing else is new. */
  function Ask(t: Tables, a: NodeId, b: NodeId, lock: string): Tables {
    Acquire(Acquire(t, a, lock), b, lock)
  }

  lemma AskAddsOneWait(t: Tables, a: NodeId, b: NodeId, lock: string, x: NodeId, y: NodeId)
    requires Recorded(t) && lock !in t.holders && WaitsFor(Ask(t, a, b, lock), x, y)
    ensures WaitsFor(t, x, y) || (x == b && y == a)
  {
    var u := Ask(t, a, b, lock);
    var l :| WaitsOn(u, x, y, l);
    if l == lock {
      assert u.waiters[lock] == [] + [b];
    } else {
      assert WaitsOn(t, x, y, l);
    }
  }

  /** An edge from a to b that is not covered becomes a false alarm as soon as b waits for a. */
  lemma UncoveredAlarm(t: Tables, a: NodeId, b: NodeId, lock: string)
    requires Recorded(t) && !CircularWait(t) && a != b
    requires Edge(t.graph, a, b) && !Reaches(t, a, b) && lock !in t.holders
    ensures Cyclic(Ask(t, a, b, lock).graph) && !CircularWait(Ask(t, a, b, lock))
  {
    var u := Ask(t, a, b, lock);
    assert Edge(u.graph, a, b) && Edge(u.graph, b, a);
    assert ClosedWalk(u.graph, [a, b, a]);
    forall x, y | WaitsFor(u, x, y) ensures WaitsFor(t, x, y) || (x == b && y == a) {
      AskAddsOneWait(t, a, b, lock, x, y);
    }
    CircleReaches(t);
    CircleReaches(u);
    forall x ensures !Reaches(u, x, x) {
      NoCircle(t, u, a, b, x);
    }
  }

  lemma NoCircle(t: Tables, u: Tables, a: NodeId, b: NodeId, x: NodeId)
    requires forall x, y :: WaitsFor(u, x, y) ==> WaitsFor(t, x, y) || (x == b && y == a)
    requires !Reaches(t, x, x) && !Reaches(t, a, b) && a != b
    ensures !Reaches(u, x, x)
  {
    forall w ensures !WaitPath(u, w, x, x) {
      if WaitPath(u, w, x, x) {
        ChainOrDetour(t, u, a, b, w);
        if x != b && x != a {
          Chain(t, a, x, b);
        }
        assert false;
      }
    }
  }

  /** There is always a lock that nobody holds. */
  lemma {:induction false} FreeLock(held: set<string>) returns (lock: string)
    ensures forall l :: l in held ==> |l| < |lock|
    decreases |held|
  {
    if held == {} {
      lock := "x";
    } else {
      var l := Member(held);
      var rest := FreeLock(held - {l});
      lock := if |l| < |rest| then rest else l + "x";
    }
  }

  lemma {:induction false} StaysExact(rs: seq<Request>, more: seq<Request>)
    requires AcquireOnly(more)
    requires Covered(ServeAll(rs)) || CircularWait(ServeAll(rs))
    ensures Covered(ServeAll(rs + more)) || CircularWait(ServeAll(rs + more))
  {
    if more == [] {
      assert rs + more == rs;
    } else {
      var front, r := more[..|more| - 1], more[|more| - 1];
      StaysExact(rs, front);
      assert rs + more == (rs + front) + [r];
      ServeOneMore(rs + front, r);
      var t := ServeAll(rs + front);
      if Covered(t) {
        AcquireKeepsCovered(t, r.node, r.lock);
      } else {
        AcquireKeepsCircle(t, r.node, r.lock);
      }
    }
  }

  /** Without them some requests lead to a false alarm. */
  lemma AlarmAhead(rs: seq<Request>) returns (more: seq<Request>)
    requires !Covered(ServeAll(rs)) && !CircularWait(ServeAll(rs))
    ensures AcquireOnly(more) && Cyclic(ServeAll(rs + more).graph) && !CircularWait(ServeAll(rs + more))
  {
    var t := ServeAll(rs);
    ServeAllRecords(rs);
    var a, b :| Edge(t.graph, a, b) && !Reaches(t, a, b);
    if a == b {
      more := [];
      assert rs + more == rs;
      assert ClosedWalk(t.graph, [a, a]);
    } else {
      var lock := FreeLock(t.holders.Keys);
      UncoveredAlarm(t, a, b, lock);
      ServeOneMore(rs, AcquireReq(a, lock));
      ServeOneMore(rs + [AcquireReq(a, lock)], AcquireReq(b, lock));
      more := [AcquireReq(a, lock), AcquireReq(b, lock)];
      assert rs + more == rs + [AcquireReq(a, lock)] + [AcquireReq(b, lock)];
    }
  }

  /** The exact condition: after a run, reports stay exact whatever is requested next if and only if
      every edge is covered, or there is a circular wait already. */
  lemma {:induction false} ExactFromHereIff(rs: seq<Request>)
    ensures (forall more :: AcquireOnly(more) ==> Exact(ServeAll(rs + more)))
            <==> Covered(ServeAll(rs)) || CircularWait(ServeAll(rs))
  {
    if Covered(ServeAll(rs)) || CircularWait(ServeAll(rs)) {
      forall more | AcquireOnly(more) ensures Exact(ServeAll(rs + more)) {
        StaysExact(rs, more);
        ServeAllRecords(rs + more);
        if Covered(ServeAll(rs + more)) {
          CoveredExact(ServeAll(rs + more));
        } else {
          CircularWaitIsCycle(rs + more);
        }
      }
    } else {
      var more := AlarmAhead(rs);
      assert !Exact(ServeAll(rs + more));
    }
  }

  /** The least false alarm: b waits for a, a releases, and a then waits for b on another lock. */
  lemma FalseAlarm(a: NodeId, b: NodeId, l: string, k: string) returns (rs: seq<Request>)
    requires a != b && l != k
    ensures rs == [AcquireReq(a, l), AcquireReq(b, l), ReleaseReq(l), AcquireReq(b, k), AcquireReq(a, k)]
    ensures Cyclic(ServeAll(rs).graph) && !CircularWait(ServeAll(rs))
  {
    var r1, r2, r3 := AcquireReq(a, l), AcquireReq(b, l), ReleaseReq(l);
    ServeOneMore([], r1);
    ServeOneMore([] + [r1], r2);
    ServeOneMore([] + [r1] + [r2], r3);
    var front := [] + [r1] + [r2] + [r3];
    var t := ServeAll(front);
    assert t.holders == map[] && t.waiters == map[] && Edge(t.graph, b, a);
    ServeAllRecords(front);
    assert forall x, y :: !WaitsFor(t, x, y);
    forall w, x, y ensures !WaitPath(t, w, x, y) {
      assert |w| >= 2 ==> !WaitsFor(t, w[0], w[0 + 1]);
    }
    CircleReaches(t);
    UncoveredAlarm(t, b, a, k);
    ServeOneMore(front, AcquireReq(b, k));
    ServeOneMore(front + [AcquireReq(b, k)], AcquireReq(a, k));
    rs := front + [AcquireReq(b, k)] + [AcquireReq(a, k)];
  }
}
