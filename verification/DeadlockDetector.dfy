/** Deadlock detection: a depth-first search for a cycle in the wait-for graph that lock requests build. */
module DeadlockDetection {
  import opened Prelude

  /** For each node the nodes it was recorded as waiting for. */
  type Graph = map<NodeId, seq<NodeId>>

  ghost predicate Edge(g: Graph, a: NodeId, b: NodeId) {
    a in g && b in g[a]
  }

  ghost predicate Walk(g: Graph, w: seq<NodeId>) {
    forall i :: 0 <= i < |w| - 1 ==> Edge(g, w[i], w[i + 1])
  }

  /** A walk along at least one edge that returns to its start. */
  ghost predicate ClosedWalk(g: Graph, w: seq<NodeId>) {
    |w| >= 2 && w[0] == w[|w| - 1] && Walk(g, w)
  }

  ghost predicate Cyclic(g: Graph) {
    exists w :: ClosedWalk(g, w)
  }

  /** A closed walk that passes no node twice. */
  ghost predicate SimpleCycle(g: Graph, w: seq<NodeId>) {
    ClosedWalk(g, w) && NoDup(w[..|w| - 1])
  }

  ghost function Nodes(g: Graph): set<NodeId> {
    g.Keys + set a, i | a in g && 0 <= i < |g[a]| :: g[a][i]
  }

  // ---------------------------------------------------------------- the finishing order

  /** Every edge out of a node leads to a node that finished before it. */
  ghost predicate FinishOrder(g: Graph, fin: seq<NodeId>) {
    NoDup(fin) && forall i, b :: 0 <= i < |fin| && Edge(g, fin[i], b) ==> b in fin[..i]
  }

  lemma {:induction false} WalkDescends(g: Graph, fin: seq<NodeId>, w: seq<NodeId>, i: nat)
    requires FinishOrder(g, fin) && Walk(g, w) && |w| >= 2
    requires i < |fin| && w[0] == fin[i]
    ensures w[|w| - 1] in fin[..i]
    decreases |w|
  {
    assert Edge(g, w[0], w[1]);
    if |w| > 2 {
      var j :| 0 <= j < i && fin[j] == w[1];
      assert Walk(g, w[1..]) by {
        forall k | 0 <= k < |w[1..]| - 1 ensures Edge(g, w[1..][k], w[1..][k + 1]) {
          assert Edge(g, w[k + 1], w[k + 2]);
        }
      }
      WalkDescends(g, fin, w[1..], j);
    }
  }

  /** Once every node with edges has finished in such an order, nothing returns to its start. */
  lemma AllFinishedAcyclic(g: Graph, fin: seq<NodeId>)
    requires FinishOrder(g, fin) && forall n :: n in g ==> n in fin
    ensures !Cyclic(g)
  {
    if Cyclic(g) {
      var w :| ClosedWalk(g, w);
      assert Edge(g, w[0], w[1]);
      var i :| 0 <= i < |fin| && fin[i] == w[0];
      WalkDescends(g, fin, w, i);
      assert false;
    }
  }

  // ---------------------------------------------------------------- the search

  /** One run of the search: the sets that its recursive calls share. */
  class CycleSearch {
    const graph: Graph
    var visited: set<NodeId>
    var recStack: set<NodeId>
    ghost var finished: seq<NodeId>

    constructor (graph: Graph)
      ensures this.graph == graph
      ensures visited == {} && recStack == {} && finished == [] && Consistent([])
    {
      this.graph := graph;
      visited, recStack, finished := {}, {}, [];
    }

    /** `path` is a walk through the nodes on the stack, each once; the other visited nodes have
        finished. */
    ghost predicate Consistent(path: seq<NodeId>)
      reads this
    {
      && NoDup(path) && Walk(graph, path)
      && (forall n :: n in path <==> n in recStack)
      && recStack <= visited <= Nodes(graph)
      && FinishOrder(graph, finished)
      && (forall n :: n in finished <==> n in visited && n !in recStack)
    }

    /** Visits a new node reached along `path`; None stands for the search's None. */
    method Dfs(node: NodeId, path: seq<NodeId>) returns (cycle: Option<seq<NodeId>>)
      requires Consistent(path) && node !in visited && node in Nodes(graph)
      requires path != [] ==> Edge(graph, path[|path| - 1], node)
      modifies this
      ensures cycle.Some? ==> SimpleCycle(graph, cycle.value)
      ensures cycle.None? ==>
                Consistent(path) && recStack == old(recStack) && old(visited) <= visited && node in visited
      decreases Nodes(graph) - visited
    {
      visited := visited + {node};
      recStack := recStack + {node};
      var path' := path + [node];
      ExtendWalk(graph, path, node);
      assert Consistent(path');
      if node in graph {
        var neighbors := graph[node];
        var i := 0;
        while i < |neighbors|
          invariant 0 <= i <= |neighbors|
          invariant Consistent(path') && recStack == old(recStack) + {node}
          invariant old(visited) + {node} <= visited
          invariant forall j :: 0 <= j < i ==> neighbors[j] in finished
        {
          var neighbor := neighbors[i];
          assert Edge(graph, node, neighbor);
          if neighbor !in visited {
            var before := recStack;
            var found := Dfs(neighbor, path');
            if found.Some? {
              return found;
            }
            assert neighbor !in before;
            assert forall j :: 0 <= j < i ==> neighbors[j] in visited;
          } else if neighbor in recStack {
            var k := IndexOf(path', neighbor);
            CloseWalk(graph, path', k, neighbor);
            return Some(path'[k..] + [neighbor]);
          }
          i := i + 1;
        }
      }
      recStack := recStack - {node};
      FinishNode(graph, finished, node);
      finished := finished + [node];
      return None;
    }
  }

  /** Position of a node on the path. */
  method IndexOf(path: seq<NodeId>, node: NodeId) returns (k: nat)
    requires node in path
    ensures k < |path| && path[k] == node && node !in path[..k]
  {
    k := 0;
    while path[k] != node
      invariant k < |path| && node !in path[..k]
      decreases |path| - k
    {
      k := k + 1;
    }
  }

  lemma ExtendWalk(g: Graph, path: seq<NodeId>, node: NodeId)
    requires Walk(g, path) && (path != [] ==> Edge(g, path[|path| - 1], node))
    ensures Walk(g, path + [node])
  {
  }

  lemma CloseWalk(g: Graph, path: seq<NodeId>, k: nat, node: NodeId)
    requires Walk(g, path) && NoDup(path) && k < |path| && path[k] == node && Edge(g, path[|path| - 1], node)
    ensures SimpleCycle(g, path[k..] + [node])
  {
    var w := path[k..] + [node];
    forall i | 0 <= i < |w| - 1 ensures Edge(g, w[i], w[i + 1]) {
      if i < |w| - 2 {
        assert Edge(g, path[k + i], path[k + i + 1]);
      }
    }
    assert w[..|w| - 1] == path[k..];
  }

  lemma FinishNode(g: Graph, fin: seq<NodeId>, node: NodeId)
    requires FinishOrder(g, fin) && node !in fin && forall b :: Edge(g, node, b) ==> b in fin
    ensures FinishOrder(g, fin + [node])
  {
    var all := fin + [node];
    forall i, b | 0 <= i < |all| && Edge(g, all[i], b) ensures b in all[..i] {
      assert i < |fin| ==> all[..i] == fin[..i];
      assert all[..|fin|] == fin;
    }
  }

  // ---------------------------------------------------------------- requests and releases

  /** The detector's three tables. `waiters` lists who asked for a held lock since it was last granted. */
  datatype Tables = Tables(graph: Graph, holders: map<string, NodeId>, waiters: map<string, seq<NodeId>>)

  const EMPTY := Tables(map[], map[], map[])

  function Acquire(t: Tables, node: NodeId, lock: string): Tables {
    if lock !in t.holders then t.(holders := t.holders[lock := node])
    else
      t.(waiters := t.waiters[lock := ListOf(t.waiters, lock) + [node]],
         graph := t.graph[node := ListOf(t.graph, node) + [t.holders[lock]]])
  }

  /** Releasing forgets the holder and the waiters, but no edge of the graph. */
  function Release(t: Tables, lock: string): Tables {
    t.(holders := t.holders - {lock}, waiters := t.waiters - {lock})
  }

  /** Right now a waits for a lock that b holds. */
  ghost predicate WaitsFor(t: Tables, a: NodeId, b: NodeId) {
    exists lock :: WaitsOn(t, a, b, lock)
  }

  ghost predicate WaitsOn(t: Tables, a: NodeId, b: NodeId, lock: string) {
    lock in t.holders && t.holders[lock] == b && lock in t.waiters && a in t.waiters[lock]
  }

  /** Nodes that right now wait for one another in a circle. */
  ghost predicate CircularWait(t: Tables) {
    exists w :: WaitCircle(t, w)
  }

  ghost predicate WaitCircle(t: Tables, w: seq<NodeId>) {
    |w| >= 2 && w[0] == w[|w| - 1] && forall i :: 0 <= i < |w| - 1 ==> WaitsFor(t, w[i], w[i + 1])
  }

  /** Every present wait is in the graph, and only held locks have waiters. */
  ghost predicate Recorded(t: Tables) {
    && (forall a, b, lock :: WaitsOn(t, a, b, lock) ==> Edge(t.graph, a, b))
    && (forall lock :: lock in t.waiters ==> lock in t.holders)
  }

  /** The graph holds present waits only. */
  ghost predicate NothingStale(t: Tables) {
    forall a, b :: Edge(t.graph, a, b) ==> WaitsFor(t, a, b)
  }

  datatype Request = AcquireReq(node: NodeId, lock: string) | ReleaseReq(lock: string)

  function Serve(t: Tables, r: Request): Tables {
    match r
    case AcquireReq(node, lock) => Acquire(t, node, lock)
    case ReleaseReq(lock) => Release(t, lock)
  }

  function ServeAll(rs: seq<Request>): Tables {
    if rs == [] then EMPTY else Serve(ServeAll(rs[..|rs| - 1]), rs[|rs| - 1])
  }

  lemma ServeRecords(t: Tables, r: Request)
    requires Recorded(t)
    ensures Recorded(Serve(t, r))
  {
    var u := Serve(t, r);
    forall a, b, lock | WaitsOn(u, a, b, lock) ensures Edge(u.graph, a, b) {
      assert WaitsOn(t, a, b, lock) ==> Edge(t.graph, a, b);
    }
  }

  lemma AcquireStaysFresh(t: Tables, node: NodeId, lock: string)
    requires Recorded(t) && NothingStale(t)
    ensures NothingStale(Acquire(t, node, lock))
  {
    var u := Acquire(t, node, lock);
    forall a, b | Edge(u.graph, a, b) ensures WaitsFor(u, a, b) {
      if Edge(t.graph, a, b) {
        var l :| WaitsOn(t, a, b, l);
        assert WaitsOn(u, a, b, l);
      } else {
        assert WaitsOn(u, node, t.holders[lock], lock);
      }
    }
  }

  /** The guard: whoever waits for the lock being released also waits for its holder on another lock;
      in particular, no one waits for it. */
  ghost predicate LeavesNothingStale(t: Tables, lock: string) {
    lock in t.holders && lock in t.waiters ==>
      forall a :: a in t.waiters[lock] ==> exists l :: l != lock && WaitsOn(t, a, t.holders[lock], l)
  }

  /** A release keeps the graph free of stale edges if and only if the guard holds. */
  lemma ReleaseStaysFreshIff(t: Tables, lock: string)
    requires Recorded(t) && NothingStale(t)
    ensures NothingStale(Release(t, lock)) <==> LeavesNothingStale(t, lock)
  {
    var u := Release(t, lock);
    if LeavesNothingStale(t, lock) {
      forall a, b | Edge(u.graph, a, b) ensures WaitsFor(u, a, b) {
        assert Edge(t.graph, a, b);
        var l :| WaitsOn(t, a, b, l);
        if l == lock {
          var l' :| l' != lock && WaitsOn(t, a, b, l');
          assert WaitsOn(u, a, b, l');
        } else {
          assert WaitsOn(u, a, b, l);
        }
      }
    } else {
      var a :| a in t.waiters[lock] && !exists l :: l != lock && WaitsOn(t, a, t.holders[lock], l);
      assert WaitsOn(t, a, t.holders[lock], lock);
      assert Edge(u.graph, a, t.holders[lock]);
      if NothingStale(u) {
        var l :| WaitsOn(u, a, t.holders[lock], l);
        assert WaitsOn(t, a, t.holders[lock], l);
      }
    }
  }

  lemma {:induction false} ServeAllRecords(rs: seq<Request>)
    ensures Recorded(ServeAll(rs))
  {
    if rs != [] {
      ServeAllRecords(rs[..|rs| - 1]);
      ServeRecords(ServeAll(rs[..|rs| - 1]), rs[|rs| - 1]);
    }
  }

  lemma CircleIsCycle(t: Tables)
    requires Recorded(t)
    ensures CircularWait(t) ==> Cyclic(t.graph)
  {
    if CircularWait(t) {
      var w :| WaitCircle(t, w);
      forall i | 0 <= i < |w| - 1 ensures Edge(t.graph, w[i], w[i + 1]) {
        assert WaitsFor(t, w[i], w[i + 1]);
      }
      assert ClosedWalk(t.graph, w);
    }
  }

  /** In every run of requests and releases a circular wait is a cycle of the graph. */
  lemma {:induction false} CircularWaitIsCycle(rs: seq<Request>)
    ensures CircularWait(ServeAll(rs)) ==> Cyclic(ServeAll(rs).graph)
  {
    ServeAllRecords(rs);
    CircleIsCycle(ServeAll(rs));
  }

  lemma ServeOneMore(rs: seq<Request>, r: Request)
    ensures ServeAll(rs + [r]) == Serve(ServeAll(rs), r)
  {
    assert (rs + [r])[..|rs|] == rs;
  }

  // ---------------------------------------------------------------- what the requests alone say

  /** Who asked for the lock since its last release, in order: the first of them holds it, the others wait. */
  function Current(rs: seq<Request>, lock: string): seq<NodeId> {
    if rs == [] then []
    else
      var front := Current(rs[..|rs| - 1], lock);
      match rs[|rs| - 1]
      case ReleaseReq(l) => if l == lock then [] else front
      case AcquireReq(node, l) => if l == lock then front + [node] else front
  }

  /** The holders that a's requests met, in order. */
  function Met(rs: seq<Request>, a: NodeId): seq<NodeId> {
    if rs == [] then []
    else
      var front, r := rs[..|rs| - 1], rs[|rs| - 1];
      Met(front, a) + if BlockedBy(rs, |rs| - 1) && r.node == a then [Current(front, r.lock)[0]] else []
  }

  /** Request i asks for a lock that someone holds. */
  predicate BlockedBy(rs: seq<Request>, i: nat)
    requires i < |rs|
  {
    rs[i].AcquireReq? && Current(rs[..i], rs[i].lock) != []
  }

  /** The tables of holders and waiters are what the requests say. */
  lemma {:induction false} TablesAre(rs: seq<Request>, lock: string)
    ensures var t, c := ServeAll(rs), Current(rs, lock);
            && (lock in t.holders <==> c != [])
            && (lock in t.waiters <==> |c| > 1)
            && (c != [] ==> t.holders[lock] == c[0] && ListOf(t.waiters, lock) == c[1..])
  {
    if rs != [] {
      var c, r := Current(rs[..|rs| - 1], lock), rs[|rs| - 1];
      TablesAre(rs[..|rs| - 1], lock);
      if c != [] && r.AcquireReq? {
        assert (c + [r.node])[1..] == c[1..] + [r.node];
      }
    }
  }

  /** So is the graph, from the first request on. */
  lemma {:induction false} GraphIs(rs: seq<Request>, a: NodeId)
    ensures ListOf(ServeAll(rs).graph, a) == Met(rs, a)
    ensures a in ServeAll(rs).graph <==> Met(rs, a) != []
  {
    if rs != [] {
      var front, r := rs[..|rs| - 1], rs[|rs| - 1];
      GraphIs(front, a);
      TablesAre(front, r.lock);
    }
  }

  /** a waits for b according to the requests. */
  ghost predicate Awaits(rs: seq<Request>, a: NodeId, b: NodeId) {
    exists lock :: AwaitsOn(rs, a, b, lock)
  }

  ghost predicate AwaitsOn(rs: seq<Request>, a: NodeId, b: NodeId, lock: string) {
    var c := Current(rs, lock);
    c != [] && c[0] == b && a in c[1..]
  }

  /** A deadlock: nodes of which each waits for the next, and the last for the first. */
  ghost predicate Deadlocked(rs: seq<Request>) {
    exists w :: AwaitCircle(rs, w)
  }

  ghost predicate AwaitCircle(rs: seq<Request>, w: seq<NodeId>) {
    |w| >= 2 && w[0] == w[|w| - 1] && forall i :: 0 <= i < |w| - 1 ==> Awaits(rs, w[i], w[i + 1])
  }

  lemma AwaitsIff(rs: seq<Request>, a: NodeId, b: NodeId)
    ensures WaitsFor(ServeAll(rs), a, b) <==> Awaits(rs, a, b)
  {
    if WaitsFor(ServeAll(rs), a, b) {
      var lock :| WaitsOn(ServeAll(rs), a, b, lock);
      TablesAre(rs, lock);
      assert AwaitsOn(rs, a, b, lock);
    }
    if Awaits(rs, a, b) {
      var lock :| AwaitsOn(rs, a, b, lock);
      TablesAre(rs, lock);
      assert WaitsOn(ServeAll(rs), a, b, lock);
    }
  }

  /** There is a circular wait in the tables if and only if the requests have led to a deadlock. */
  lemma {:induction false} DeadlockIff(rs: seq<Request>)
    ensures CircularWait(ServeAll(rs)) <==> Deadlocked(rs)
  {
    forall a, b ensures WaitsFor(ServeAll(rs), a, b) <==> Awaits(rs, a, b) {
      AwaitsIff(rs, a, b);
    }
    if CircularWait(ServeAll(rs)) {
      var w :| WaitCircle(ServeAll(rs), w);
      assert AwaitCircle(rs, w);
    }
    if Deadlocked(rs) {
      var w :| AwaitCircle(rs, w);
      assert WaitCircle(ServeAll(rs), w);
    }
  }

  /** An edge from a to b is there if and only if some request of a met a lock that b held. */
  lemma {:induction false} EdgeIff(rs: seq<Request>, a: NodeId, b: NodeId)
    ensures Edge(ServeAll(rs).graph, a, b)
       <==> exists i: nat :: i < |rs| && BlockedBy(rs, i) && rs[i].node == a && Current(rs[..i], rs[i].lock)[0] == b
  {
    GraphIs(rs, a);
    MetIff(rs, a, b);
  }

  lemma {:induction false} MetIff(rs: seq<Request>, a: NodeId, b: NodeId)
    ensures b in Met(rs, a)
       <==> exists i: nat :: i < |rs| && BlockedBy(rs, i) && rs[i].node == a && Current(rs[..i], rs[i].lock)[0] == b
  {
    if rs != [] {
      var front, n := rs[..|rs| - 1], |rs| - 1;
      MetIff(front, a, b);
      assert forall i: nat :: i < n ==> rs[..i] == front[..i] && rs[i] == front[i];
      assert forall i: nat :: i < n ==> (BlockedBy(rs, i) <==> BlockedBy(front, i));
      if b in Met(rs, a) && b !in Met(front, a) {
        assert BlockedBy(rs, n);
      }
    }
  }

  /** No deadlock is missed: in every run of requests and releases a deadlock is a cycle of the graph. */
  lemma {:induction false} DeadlockIsCycle(rs: seq<Request>)
    ensures Deadlocked(rs) ==> Cyclic(ServeAll(rs).graph)
  {
    DeadlockIff(rs);
    CircularWaitIsCycle(rs);
  }

  // ---------------------------------------------------------------- the detector in place

  class DeadlockDetector {
    var waitForGraph: Graph
    var order: seq<NodeId>  // the keys of the graph, oldest first
    var lockHolders: map<string, NodeId>
    var lockWaiters: map<string, seq<NodeId>>
    ghost var served: seq<Request>

    function State(): Tables
      reads this
    {
      Tables(waitForGraph, lockHolders, lockWaiters)
    }

    ghost predicate Valid()
      reads this
    {
      State() == ServeAll(served) && forall n :: n in order <==> n in waitForGraph
    }

    constructor ()
      ensures Valid() && State() == EMPTY && served == []
    {
      waitForGraph, order, lockHolders, lockWaiters := map[], [], map[], map[];
      served := [];
    }

    method AcquireLock(node: NodeId, lock: string)
      requires Valid()
      modifies this
      ensures Valid() && State() == Acquire(old(State()), node, lock)
      ensures served == old(served) + [AcquireReq(node, lock)]
    {
      if lock !in lockHolders {
        lockHolders := lockHolders[lock := node];
      } else {
        if lock !in lockWaiters {
          lockWaiters := lockWaiters[lock := []];
        }
        lockWaiters := lockWaiters[lock := lockWaiters[lock] + [node]];
        assert lockWaiters == old(lockWaiters)[lock := ListOf(old(lockWaiters), lock) + [node]];
        if node !in waitForGraph {
          waitForGraph, order := waitForGraph[node := []], order + [node];
        }
        waitForGraph := waitForGraph[node := waitForGraph[node] + [lockHolders[lock]]];
        assert waitForGraph == old(waitForGraph)[node := ListOf(old(waitForGraph), node) + [lockHolders[lock]]];
      }
      assert State() == Acquire(old(State()), node, lock);
      ServeOneMore(served, AcquireReq(node, lock));
      served := served + [AcquireReq(node, lock)];
    }

    method ReleaseLock(lock: string)
      requires Valid()
      modifies this
      ensures Valid() && State() == Release(old(State()), lock)
      ensures served == old(served) + [ReleaseReq(lock)]
    {
      if lock in lockHolders {
        lockHolders := lockHolders - {lock};
      }
      if lock in lockWaiters {
        lockWaiters := lockWaiters - {lock};
      }
      assert State() == Release(old(State()), lock);
      ServeOneMore(served, ReleaseReq(lock));
      served := served + [ReleaseReq(lock)];
    }

    /** None exactly when no walk returns to its start, and never while the requests served so far have led to
        a deadlock; otherwise a cycle that passes no node twice. */
    method DetectCycle() returns (cycle: Option<seq<NodeId>>)
      requires Valid()
      ensures cycle.None? <==> !Cyclic(waitForGraph)
      ensures Deadlocked(served) ==> cycle.Some?
      ensures cycle.Some? ==> SimpleCycle(waitForGraph, cycle.value)
    {
      var search := new CycleSearch(waitForGraph);
      var i := 0;
      while i < |order|
        invariant 0 <= i <= |order|
        invariant search.Consistent([])
        invariant forall j :: 0 <= j < i ==> order[j] in search.visited
      {
        if order[i] !in search.visited {
          var found := search.Dfs(order[i], []);
          if found.Some? {
            assert ClosedWalk(waitForGraph, found.value);
            return found;
          }
        }
        i := i + 1;
      }
      AllFinishedAcyclic(waitForGraph, search.finished);
      DeadlockIsCycle(served);
      return None;
    }
  }
}
