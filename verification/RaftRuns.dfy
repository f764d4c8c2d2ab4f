/** Building runs step by step: each lemma extends a run by one step and says what moved. */
module RaftRuns {
  import opened Prelude
  import opened RaftNodes
  import opened RaftClusters
  import opened ElectionSafety

  /** The node lists name every node once. */
  ghost predicate DistinctViews(cfg: Config) {
    ValidConfig(cfg) && forall n :: n in cfg.members ==> |cfg.views[n]| == |cfg.members|
  }

  /** Other nodes stay as they are, and nothing sent or given is withdrawn. */
  ghost predicate OnlyMoves(c: Cluster, d: Cluster, n: NodeId) {
    && d.nodes.Keys == c.nodes.Keys
    && (forall m :: m in c.nodes && m != n ==> d.nodes[m] == c.nodes[m] && (m in d.pending <==> m in c.pending))
    && (forall m :: m in c.pending && m != n ==> m in d.pending && d.pending[m] == c.pending[m])
    && c.requests <= d.requests && c.grants <= d.grants && c.elected <= d.elected
    && c.appends <= d.appends
  }

  lemma Extend(cfg: Config, steps: seq<Step>, step: Step)
    requires IsRun(cfg, Init(cfg), steps) && Enabled(cfg, After(cfg, Init(cfg), steps), step)
    ensures IsRun(cfg, Init(cfg), steps + [step])
    ensures After(cfg, Init(cfg), steps + [step]) == Apply(cfg, After(cfg, Init(cfg), steps), step)
    ensures VotesKept(cfg, steps) && KeepsVote(cfg, After(cfg, Init(cfg), steps), step) ==>
              VotesKept(cfg, steps + [step])
  {
    assert (steps + [step])[..|steps|] == steps;
  }

  lemma OnlyMovesTwice(c: Cluster, d: Cluster, e: Cluster, n: NodeId)
    requires OnlyMoves(c, d, n) && OnlyMoves(d, e, n)
    ensures OnlyMoves(c, e, n)
  {
  }

  lemma HasPeers(cfg: Config, n: NodeId)
    requires |cfg.members| >= 2
    ensures cfg.members - {n} != {}
  {
    if cfg.members - {n} == {} {
      SubsetCard(cfg.members, {n});
    }
  }

  lemma StartMoves(cfg: Config, c: Cluster, n: NodeId)
    requires n in c.nodes && |cfg.members| >= 2
    ensures var d := Start(cfg, c, n);
            && OnlyMoves(c, d, n)
            && d.nodes[n] == StartElection(c.nodes[n], n)
            && n in d.pending && d.pending[n] == d.nodes[n].term
            && RequestOf(d.nodes[n], n) in d.requests
  {
    HasPeers(cfg, n);
  }

  lemma DoStart(cfg: Config, steps: seq<Step>, n: NodeId) returns (more: seq<Step>)
    requires ValidConfig(cfg) && IsRun(cfg, Init(cfg), steps) && |cfg.members| >= 2 && n in cfg.members
    requires var c := After(cfg, Init(cfg), steps);
             n in c.nodes && n !in c.pending && c.nodes[n].role != Leader
    ensures IsRun(cfg, Init(cfg), more)
    ensures VotesKept(cfg, steps) ==> VotesKept(cfg, more)
    ensures var c, d := After(cfg, Init(cfg), steps), After(cfg, Init(cfg), more);
            && OnlyMoves(c, d, n)
            && d.nodes[n] == StartElection(c.nodes[n], n)
            && n in d.pending && d.pending[n] == d.nodes[n].term
            && RequestOf(d.nodes[n], n) in d.requests
  {
    StartMoves(cfg, After(cfg, Init(cfg), steps), n);
    Extend(cfg, steps, StartStep(n));
    more := steps + [StartStep(n)];
  }

  lemma DoVote(cfg: Config, steps: seq<Step>, n: NodeId, r: VoteRequest) returns (more: seq<Step>)
    requires ValidConfig(cfg) && IsRun(cfg, Init(cfg), steps) && n in cfg.members
    requires var c := After(cfg, Init(cfg), steps);
             n in c.nodes && r in c.requests && n != r.candidate && GrantsVote(c.nodes[n], r)
    ensures IsRun(cfg, Init(cfg), more)
    ensures VotesKept(cfg, steps) ==> VotesKept(cfg, more)
    ensures var c, d := After(cfg, Init(cfg), steps), After(cfg, Init(cfg), more);
            && OnlyMoves(c, d, n)
            && d.nodes[n] == RequestVote(c.nodes[n], r)
            && (n in d.pending <==> n in c.pending)
            && Grant(n, r.candidate, r.term) in d.grants
  {
    Extend(cfg, steps, VoteStep(n, r));
    more := steps + [VoteStep(n, r)];
  }

  /** An election that ends with no answer at all. */
  lemma DoGiveUp(cfg: Config, steps: seq<Step>, n: NodeId) returns (more: seq<Step>)
    requires ValidConfig(cfg) && IsRun(cfg, Init(cfg), steps) && |cfg.members| >= 2 && n in cfg.members
    requires var c := After(cfg, Init(cfg), steps); n in c.nodes && n in c.pending
    ensures IsRun(cfg, Init(cfg), more)
    ensures var c, d := After(cfg, Init(cfg), steps), After(cfg, Init(cfg), more);
            && OnlyMoves(c, d, n)
            && d.nodes[n] == BecomeFollower(c.nodes[n], c.nodes[n].term)
            && n !in d.pending
  {
    MajorityIsQuorum(cfg, n);
    assert Responses([]) == [];
    Extend(cfg, steps, FinishStep(n, []));
    more := steps + [FinishStep(n, [])];
  }

  /** All of xs answer with their vote and the term they gave it in. */
  function Yes(xs: seq<NodeId>, term: int): seq<(NodeId, Response)> {
    seq(|xs|, i requires 0 <= i < |xs| => (xs[i], Response(Some(term), true)))
  }

  lemma {:induction false} YesCounts(term: int, xs: seq<NodeId>, votes: nat)
    ensures CountVotes(term, Responses(Yes(xs, term)), votes) == Votes(votes + |xs|)
    decreases |xs|
  {
    if xs != [] {
      assert Responses(Yes(xs, term))[1..] == Responses(Yes(xs[1..], term));
      YesCounts(term, xs[1..], votes + 1);
    }
  }

  lemma YesMoves(cfg: Config, c: Cluster, n: NodeId, xs: seq<NodeId>, term: int)
    requires n in c.nodes && n in cfg.views && c.nodes[n].role == Candidate && c.nodes[n].term == term
    requires |xs| + 1 >= Majority(cfg, n)
    ensures var d := Finish(cfg, c, n, Yes(xs, term));
            && OnlyMoves(c, d, n) && c.grants == d.grants
            && d.nodes[n] == BecomeLeader(c.nodes[n], n) && n !in d.pending
            && Won(n, term) in d.elected
    ensures Wins(c.nodes[n], Responses(Yes(xs, term)), Majority(cfg, n))
  {
    YesCounts(term, xs, 1);
  }

  lemma VotersExist(cfg: Config, steps: seq<Step>, n: NodeId, xs: seq<NodeId>)
    requires ValidConfig(cfg) && IsRun(cfg, Init(cfg), steps)
    requires var c := After(cfg, Init(cfg), steps);
             n in c.pending && forall x :: x in xs ==> Grant(x, n, c.pending[n]) in c.grants
    ensures forall x :: x in xs ==> x in After(cfg, Init(cfg), steps).nodes
  {
    RunKeepsBase(cfg, steps);
    var c := After(cfg, Init(cfg), steps);
    forall x | x in xs ensures x in c.nodes {
      assert GrantPast(c, Grant(x, n, c.pending[n]));
    }
  }

  /** An election in which every node of xs answered with its vote. */
  lemma DoWin(cfg: Config, steps: seq<Step>, n: NodeId, xs: seq<NodeId>) returns (more: seq<Step>)
    requires ValidConfig(cfg) && IsRun(cfg, Init(cfg), steps) && n in cfg.members
    requires var c := After(cfg, Init(cfg), steps);
             && n in c.nodes && n in c.pending && c.nodes[n].role == Candidate
             && NoDup(xs) && n !in xs && |xs| + 1 >= Majority(cfg, n)
             && forall x :: x in xs ==> Grant(x, n, c.pending[n]) in c.grants
    ensures IsRun(cfg, Init(cfg), more)
    ensures VotesKept(cfg, steps) ==> VotesKept(cfg, more)
    ensures var c, d := After(cfg, Init(cfg), steps), After(cfg, Init(cfg), more);
            && OnlyMoves(c, d, n) && c.grants == d.grants
            && d.nodes[n] == BecomeLeader(c.nodes[n], n) && n !in d.pending
            && Won(n, d.nodes[n].term) in d.elected
  {
    var c := After(cfg, Init(cfg), steps);
    var term := c.nodes[n].term;
    VotersExist(cfg, steps, n, xs);
    YesMoves(cfg, c, n, xs, term);
    Extend(cfg, steps, FinishStep(n, Yes(xs, term)));
    more := steps + [FinishStep(n, Yes(xs, term))];
  }

  /** Two nodes and the others. */
  lemma ThreeParts(cfg: Config) returns (y: NodeId, z: NodeId, xs: seq<NodeId>)
    requires |cfg.members| >= 3
    ensures y in cfg.members && z in cfg.members && y != z
    ensures NoDup(xs) && y !in xs && z !in xs && |xs| == |cfg.members| - 2
    ensures forall x :: x in xs ==> x in cfg.members
  {
    y :| y in cfg.members;
    assert |cfg.members - {y}| == |cfg.members| - 1;
    z :| z in cfg.members - {y};
    xs := Enumerate(cfg.members - {y} - {z});
    assert forall x :: x in xs <==> x in Elems(xs);
  }
}
