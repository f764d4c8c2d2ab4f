/** Without the guard of ElectionSafety the code elects two leaders in one term in every cluster of
    three or more nodes. The run: y and z both campaign in term 2; every other node x starts an
    election in term 1, votes for y in term 2 while it waits, ends its own election, which clears that
    vote, and votes for z in term 2. */
module ElectionUnsafe {
  import opened Prelude
  import opened RaftNodes
  import opened RaftClusters
  import opened ElectionSafety
  import opened RaftRuns

  function Campaigning(n: NodeId, term: int): NodeState {
    NodeState(Candidate, term, Some(n), None, [], 0, 0, [])
  }

  function Request(n: NodeId): VoteRequest {
    VoteRequest(n, 2, -1, 0)
  }

  /** n waits for the votes of term 2. */
  ghost predicate Waits(c: Cluster, n: NodeId) {
    && n in c.nodes && c.nodes[n] == Campaigning(n, 2)
    && n in c.pending && c.pending[n] == 2
    && Request(n) in c.requests
  }

  ghost predicate Idle(c: Cluster, n: NodeId) {
    n in c.nodes && c.nodes[n] == INITIAL && n !in c.pending
  }

  /** An election that nobody answers leaves the node one term further. */
  lemma FailOnce(cfg: Config, steps: seq<Step>, n: NodeId) returns (more: seq<Step>)
    requires ValidConfig(cfg) && IsRun(cfg, Init(cfg), steps) && |cfg.members| >= 2
    requires n in cfg.members && Idle(After(cfg, Init(cfg), steps), n)
    ensures IsRun(cfg, Init(cfg), more)
    ensures var c, d := After(cfg, Init(cfg), steps), After(cfg, Init(cfg), more);
            OnlyMoves(c, d, n) && d.nodes[n] == INITIAL.(term := 1) && n !in d.pending
  {
    var first := DoStart(cfg, steps, n);
    more := DoGiveUp(cfg, first, n);
    OnlyMovesTwice(After(cfg, Init(cfg), steps), After(cfg, Init(cfg), first), After(cfg, Init(cfg), more), n);
  }

  lemma Campaign(cfg: Config, steps: seq<Step>, n: NodeId) returns (more: seq<Step>)
    requires ValidConfig(cfg) && IsRun(cfg, Init(cfg), steps) && |cfg.members| >= 2
    requires n in cfg.members && Idle(After(cfg, Init(cfg), steps), n)
    ensures IsRun(cfg, Init(cfg), more)
    ensures OnlyMoves(After(cfg, Init(cfg), steps), After(cfg, Init(cfg), more), n)
    ensures Waits(After(cfg, Init(cfg), more), n)
  {
    var first := FailOnce(cfg, steps, n);
    more := DoStart(cfg, first, n);
    assert StartElection(INITIAL.(term := 1), n) == Campaigning(n, 2);
    assert RequestOf(Campaigning(n, 2), n) == Request(n);
    OnlyMovesTwice(After(cfg, Init(cfg), steps), After(cfg, Init(cfg), first), After(cfg, Init(cfg), more), n);
  }

  /** x starts an election in term 1 and votes for y in term 2 while it waits. */
  lemma VoteWhileWaiting(cfg: Config, steps: seq<Step>, x: NodeId, y: NodeId) returns (more: seq<Step>)
    requires ValidConfig(cfg) && IsRun(cfg, Init(cfg), steps) && |cfg.members| >= 2
    requires x != y && x in cfg.members && Idle(After(cfg, Init(cfg), steps), x)
    requires Waits(After(cfg, Init(cfg), steps), y)
    ensures IsRun(cfg, Init(cfg), more)
    ensures var c, d := After(cfg, Init(cfg), steps), After(cfg, Init(cfg), more);
            && OnlyMoves(c, d, x)
            && d.nodes[x] == INITIAL.(term := 2, votedFor := Some(y)) && x in d.pending
            && Grant(x, y, 2) in d.grants
  {
    var first := DoStart(cfg, steps, x);
    more := DoVote(cfg, first, x, Request(y));
    OnlyMovesTwice(After(cfg, Init(cfg), steps), After(cfg, Init(cfg), first), After(cfg, Init(cfg), more), x);
  }

  /** x ends its election, which clears its vote for y, and votes for z in the same term. */
  lemma VoteAgain(cfg: Config, steps: seq<Step>, x: NodeId, y: NodeId, z: NodeId) returns (more: seq<Step>)
    requires ValidConfig(cfg) && IsRun(cfg, Init(cfg), steps) && |cfg.members| >= 2 && x != z && x in cfg.members
    requires var c := After(cfg, Init(cfg), steps);
             && x in c.nodes && c.nodes[x] == INITIAL.(term := 2, votedFor := Some(y)) && x in c.pending
             && Request(z) in c.requests
    ensures IsRun(cfg, Init(cfg), more)
    ensures var c, d := After(cfg, Init(cfg), steps), After(cfg, Init(cfg), more);
            OnlyMoves(c, d, x) && Grant(x, z, 2) in d.grants
  {
    var first := DoGiveUp(cfg, steps, x);
    more := DoVote(cfg, first, x, Request(z));
    OnlyMovesTwice(After(cfg, Init(cfg), steps), After(cfg, Init(cfg), first), After(cfg, Init(cfg), more), x);
  }

  lemma VoteTwice(cfg: Config, steps: seq<Step>, x: NodeId, y: NodeId, z: NodeId) returns (more: seq<Step>)
    requires ValidConfig(cfg) && IsRun(cfg, Init(cfg), steps) && |cfg.members| >= 2
    requires x != y && x != z && x in cfg.members && Idle(After(cfg, Init(cfg), steps), x)
    requires Waits(After(cfg, Init(cfg), steps), y) && Waits(After(cfg, Init(cfg), steps), z)
    ensures IsRun(cfg, Init(cfg), more)
    ensures OnlyMoves(After(cfg, Init(cfg), steps), After(cfg, Init(cfg), more), x)
    ensures {Grant(x, y, 2), Grant(x, z, 2)} <= After(cfg, Init(cfg), more).grants
  {
    var first := VoteWhileWaiting(cfg, steps, x, y);
    more := VoteAgain(cfg, first, x, y, z);
    OnlyMovesTwice(After(cfg, Init(cfg), steps), After(cfg, Init(cfg), first), After(cfg, Init(cfg), more), x);
  }

  lemma {:induction false} AllVoteTwice(cfg: Config, steps: seq<Step>, xs: seq<NodeId>, y: NodeId, z: NodeId)
    returns (more: seq<Step>)
    requires ValidConfig(cfg) && IsRun(cfg, Init(cfg), steps) && |cfg.members| >= 2
    requires NoDup(xs) && y !in xs && z !in xs
    requires forall x :: x in xs ==> x in cfg.members && Idle(After(cfg, Init(cfg), steps), x)
    requires Waits(After(cfg, Init(cfg), steps), y) && Waits(After(cfg, Init(cfg), steps), z)
    ensures IsRun(cfg, Init(cfg), more)
    ensures Waits(After(cfg, Init(cfg), more), y) && Waits(After(cfg, Init(cfg), more), z)
    ensures After(cfg, Init(cfg), steps).grants <= After(cfg, Init(cfg), more).grants
    ensures forall x :: x in xs ==> {Grant(x, y, 2), Grant(x, z, 2)} <= After(cfg, Init(cfg), more).grants
    decreases |xs|
  {
    if xs == [] {
      more := steps;
    } else {
      var mid := VoteTwice(cfg, steps, xs[0], y, z);
      more := AllVoteTwice(cfg, mid, xs[1..], y, z);
    }
  }

  /** Every cluster of three or more nodes has a run that elects two leaders in one term. */
  lemma TwoLeaders(cfg: Config) returns (steps: seq<Step>)
    requires DistinctViews(cfg) && |cfg.members| >= 3
    ensures IsRun(cfg, Init(cfg), steps)
    ensures !OneLeaderPerTerm(After(cfg, Init(cfg), steps))
  {
    var y, z, xs := ThreeParts(cfg);
    var first := Campaign(cfg, [], y);
    var second := Campaign(cfg, first, z);
    var third := AllVoteTwice(cfg, second, xs, y, z);
    var fourth := DoWin(cfg, third, y, xs);
    steps := DoWin(cfg, fourth, z, xs);
    var d := After(cfg, Init(cfg), steps);
    assert Won(y, 2) in d.elected && Won(z, 2) in d.elected;
  }

  /** Exactly when the code as written is safe in every run: up to two nodes. */
  lemma SafeExactlyUpToTwoNodes(cfg: Config)
    requires DistinctViews(cfg)
    ensures (forall steps :: IsRun(cfg, Init(cfg), steps) ==> OneLeaderPerTerm(After(cfg, Init(cfg), steps)))
            <==> |cfg.members| <= 2
  {
    if |cfg.members| <= 2 {
      forall steps | IsRun(cfg, Init(cfg), steps) ensures OneLeaderPerTerm(After(cfg, Init(cfg), steps)) {
        SmallClustersSafe(cfg, steps);
      }
    } else {
      var steps := TwoLeaders(cfg);
    }
  }
}
