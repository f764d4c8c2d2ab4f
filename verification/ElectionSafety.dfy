/** Election safety: at most one node ever becomes leader in a term. */
module ElectionSafety {
  import opened Prelude
  import opened RaftNodes
  import opened RaftClusters

  ghost predicate OneLeaderPerTerm(c: Cluster) {
    forall v, w :: v in c.elected && w in c.elected && v.term == w.term ==> v.node == w.node
  }

  // ---------------------------------------------------------------- what every run keeps

  ghost predicate Shape(cfg: Config, c: Cluster) {
    ValidConfig(cfg) && c.nodes.Keys == cfg.members && c.pending.Keys <= cfg.members
  }

  ghost predicate NoGrantBy(c: Cluster, n: NodeId, term: int) {
    forall g :: g in c.grants && g.voter == n ==> g.term != term
  }

  /** A vote belongs to a term its giver has reached. */
  ghost predicate GrantPast(c: Cluster, g: Grant) {
    g.voter in c.nodes && g.voter != g.candidate && g.term <= c.nodes[g.voter].term
  }

  /** What holds of one node: a vote for another was really given; while the node still is in the
      term of its own election its vote is its own; a candidate is in such an election; and a leader
      was elected. */
  ghost predicate NodeOk(c: Cluster, n: NodeId)
    requires n in c.nodes
  {
    var s := c.nodes[n];
    && (s.votedFor.Some? && s.votedFor.value != n ==> Grant(n, s.votedFor.value, s.term) in c.grants)
    && (n in c.pending ==>
          && c.pending[n] <= s.term
          && (c.pending[n] == s.term ==> s.votedFor == Some(n) && NoGrantBy(c, n, s.term)))
    && (s.role == Candidate ==> n in c.pending && c.pending[n] == s.term)
    && (s.role == Leader ==> Won(n, s.term) in c.elected)
  }

  ghost predicate WinnerKeepsVote(c: Cluster, w: Won) {
    && w.node in c.nodes
    && w.term <= c.nodes[w.node].term
    && (w.term == c.nodes[w.node].term ==> c.nodes[w.node].votedFor == Some(w.node))
    && (w.node in c.pending ==> w.term < c.pending[w.node])
    && NoGrantBy(c, w.node, w.term)
  }

  ghost function Voters(c: Cluster, w: Won): set<NodeId> {
    set v | v in c.nodes && (v == w.node || Grant(v, w.node, w.term) in c.grants)
  }

  ghost predicate Quorum(cfg: Config, c: Cluster, w: Won) {
    2 * |Voters(c, w)| > |cfg.members|
  }

  ghost predicate BaseInv(cfg: Config, c: Cluster) {
    && Shape(cfg, c)
    && (forall n :: n in c.nodes ==> NodeOk(c, n))
    && (forall g :: g in c.grants ==> GrantPast(c, g))
    && (forall w :: w in c.elected ==> WinnerKeepsVote(c, w))
    && (forall w :: w in c.elected ==> Quorum(cfg, c, w))
  }

  // ---------------------------------------------------------------- votes that are not given twice

  /** A node that is still in the term in which it gave a vote remembers that vote. */
  ghost predicate VoteHeld(c: Cluster, g: Grant) {
    g.voter in c.nodes && (c.nodes[g.voter].term == g.term ==> c.nodes[g.voter].votedFor == Some(g.candidate))
  }

  ghost predicate OneVotePerTerm(c: Cluster) {
    forall g, h :: g in c.grants && h in c.grants && g.voter == h.voter && g.term == h.term ==>
      g.candidate == h.candidate
  }

  ghost predicate VoteInv(cfg: Config, c: Cluster) {
    BaseInv(cfg, c) && (forall g :: g in c.grants ==> VoteHeld(c, g)) && OneVotePerTerm(c)
  }

  /** The last line of an election clears the node's vote without a change of term, unless the node
      won or saw a newer term. */
  predicate StepsDownInPlace(s: NodeState, answers: seq<Response>, majority: nat) {
    CountVotes(s.term, answers, 1).Votes? && !Wins(s, answers, majority)
  }

  /** The guard that keeps this harmless: the vote being cleared is not another node's. */
  ghost predicate KeepsVote(cfg: Config, c: Cluster, step: Step) {
    step.FinishStep? && step.node in c.nodes && step.node in cfg.views
    && StepsDownInPlace(c.nodes[step.node], Responses(step.answers), Majority(cfg, step.node)) ==>
      c.nodes[step.node].votedFor in {None, Some(step.node)}
  }

  // ---------------------------------------------------------------- quorums

  lemma {:induction false} ElemsCard(s: seq<NodeId>)
    ensures |Elems(s)| <= |s|
  {
    if s != [] {
      ElemsCard(s[..|s| - 1]);
      assert s == s[..|s| - 1] + [s[|s| - 1]];
      assert Elems(s) == Elems(s[..|s| - 1]) + {s[|s| - 1]};
    }
  }

  lemma MajorityIsQuorum(cfg: Config, n: NodeId)
    requires ValidConfig(cfg) && n in cfg.members
    ensures 2 * Majority(cfg, n) > |cfg.members|
  {
    ElemsCard(cfg.views[n]);
  }

  /** The counted votes come from that many distinct granting peers. */
  lemma {:induction false} CountedVotersGranted(c: Cluster, n: NodeId, answers: seq<(NodeId, Response)>, term: int,
                                                votes: nat)
    returns (givers: set<NodeId>)
    requires n in c.pending && RealAnswers(c, n, answers)
    requires CountVotes(term, Responses(answers), votes).Votes?
    ensures CountVotes(term, Responses(answers), votes).n == votes + |givers|
    ensures forall v :: v in givers ==>
      Grant(v, n, c.pending[n]) in c.grants && exists i :: 0 <= i < |answers| && answers[i].0 == v
    decreases |answers|
  {
    if answers == [] {
      givers := {};
    } else {
      var v, a, rest := answers[0].0, answers[0].1, answers[1..];
      assert Responses(answers)[1..] == Responses(rest);
      if a.Response? && a.granted {
        givers := CountedVotersGranted(c, n, rest, term, votes + 1);
        assert v !in givers;
        givers := givers + {v};
      } else {
        givers := CountedVotersGranted(c, n, rest, term, votes);
      }
    }
  }

  lemma WinnerHasQuorum(cfg: Config, c: Cluster, n: NodeId, answers: seq<(NodeId, Response)>)
    requires Shape(cfg, c) && n in c.pending && RealAnswers(c, n, answers) && n in c.nodes && n in cfg.views
    requires c.pending[n] == c.nodes[n].term && forall g :: g in c.grants ==> GrantPast(c, g)
    requires Wins(c.nodes[n], Responses(answers), Majority(cfg, n))
    ensures Quorum(cfg, c, Won(n, c.nodes[n].term))
  {
    var givers := CountedVotersGranted(c, n, answers, c.nodes[n].term, 1);
    MajorityIsQuorum(cfg, n);
    assert n !in givers;
    SubsetCard(givers + {n}, Voters(c, Won(n, c.nodes[n].term)));
  }

  /** A quorum stays a quorum when votes are only added. */
  lemma QuorumsStay(cfg: Config, c: Cluster, d: Cluster)
    requires forall w :: w in c.elected ==> Quorum(cfg, c, w)
    requires c.nodes.Keys == d.nodes.Keys && c.grants <= d.grants
    ensures forall w :: w in c.elected ==> Quorum(cfg, d, w)
  {
    forall w | w in c.elected ensures Quorum(cfg, d, w) {
      QuorumStays(cfg, c, d, w);
    }
  }

  lemma QuorumStays(cfg: Config, c: Cluster, d: Cluster, w: Won)
    requires Quorum(cfg, c, w) && c.nodes.Keys == d.nodes.Keys && c.grants <= d.grants
    ensures Quorum(cfg, d, w)
  {
    SubsetCard(Voters(c, w), Voters(d, w));
  }

  // ---------------------------------------------------------------- each step keeps the invariant

  lemma InitInv(cfg: Config)
    requires ValidConfig(cfg)
    ensures VoteInv(cfg, Init(cfg))
  {
  }

  /** What a step other than an election's may do to a node's term, vote and role. */
  predicate Quiet(s: NodeState, t: NodeState) {
    || (t.term == s.term && t.votedFor == s.votedFor && t.role in {s.role, Follower})
    || (t.term > s.term && t.votedFor.None? && t.role == Follower)
  }

  lemma HandlersQuiet(s: NodeState)
    ensures forall term :: Quiet(s, AdoptTerm(s, term))
    ensures forall leader, term :: Quiet(s, ReceiveHeartbeat(s, leader, term))
    ensures forall command :: Quiet(s, AppendEntry(s, command))
  {
  }

  lemma AppendEntriesQuiet(s: NodeState, leader: NodeId, term: int, prevIndex: int, prevTerm: int,
                           entries: seq<LogEntry>, leaderCommit: int)
    ensures Quiet(s, AppendEntries(s, leader, term, prevIndex, prevTerm, entries, leaderCommit))
  {
  }

  /** One node changes, and nothing that elections record. */
  ghost predicate OneNodeMoves(c: Cluster, d: Cluster, n: NodeId, t: NodeState) {
    && n in c.nodes && d.nodes == c.nodes[n := t]
    && d.pending == c.pending && d.grants == c.grants && d.elected == c.elected
  }

  lemma QuietKeepsNode(c: Cluster, d: Cluster, n: NodeId, t: NodeState, m: NodeId)
    requires OneNodeMoves(c, d, n, t) && Quiet(c.nodes[n], t) && m in c.nodes && NodeOk(c, m)
    ensures NodeOk(d, m)
  {
  }

  lemma QuietKeepsGrant(c: Cluster, d: Cluster, n: NodeId, t: NodeState, g: Grant)
    requires OneNodeMoves(c, d, n, t) && Quiet(c.nodes[n], t) && GrantPast(c, g)
    ensures GrantPast(d, g)
  {
  }

  lemma QuietKeepsWinner(c: Cluster, d: Cluster, n: NodeId, t: NodeState, w: Won)
    requires OneNodeMoves(c, d, n, t) && Quiet(c.nodes[n], t) && WinnerKeepsVote(c, w)
    ensures WinnerKeepsVote(d, w)
  {
  }

  lemma QuietKeepsBase(cfg: Config, c: Cluster, d: Cluster, n: NodeId, t: NodeState)
    requires BaseInv(cfg, c) && OneNodeMoves(c, d, n, t) && Quiet(c.nodes[n], t)
    ensures BaseInv(cfg, d)
  {
    QuorumsStay(cfg, c, d);
    forall m | m in d.nodes ensures NodeOk(d, m) {
      QuietKeepsNode(c, d, n, t, m);
    }
    forall g | g in d.grants ensures GrantPast(d, g) {
      QuietKeepsGrant(c, d, n, t, g);
    }
    forall w | w in d.elected ensures WinnerKeepsVote(d, w) {
      QuietKeepsWinner(c, d, n, t, w);
    }
  }

  lemma QuietKeepsVotes(cfg: Config, c: Cluster, d: Cluster, n: NodeId, t: NodeState)
    requires VoteInv(cfg, c) && OneNodeMoves(c, d, n, t) && Quiet(c.nodes[n], t)
    ensures VoteInv(cfg, d)
  {
    QuietKeepsBase(cfg, c, d, n, t);
    forall g | g in d.grants ensures VoteHeld(d, g) {
      assert g in c.grants ==> VoteHeld(c, g) && GrantPast(c, g);
    }
  }

  /** The cluster after node n has taken state t. */
  function Put(c: Cluster, n: NodeId, t: NodeState): Cluster {
    c.(nodes := c.nodes[n := t])
  }

  /** A vote given by a node that is already in the request's term. */
  ghost predicate Casts(c: Cluster, d: Cluster, n: NodeId, r: VoteRequest) {
    && n in c.nodes && n != r.candidate && c.nodes[n].term == r.term
    && c.nodes[n].votedFor in {None, Some(r.candidate)}
    && d.nodes == c.nodes[n := c.nodes[n].(votedFor := Some(r.candidate))]
    && d.grants == c.grants + {Grant(n, r.candidate, r.term)}
    && d.pending == c.pending && d.elected == c.elected
  }

  lemma CastKeepsNodes(cfg: Config, c: Cluster, d: Cluster, n: NodeId, r: VoteRequest)
    requires BaseInv(cfg, c) && Casts(c, d, n, r)
    ensures forall m :: m in d.nodes ==> NodeOk(d, m)
    ensures forall g :: g in d.grants ==> GrantPast(d, g)
  {
    forall m | m in d.nodes ensures NodeOk(d, m) {
      assert NodeOk(c, m);
    }
    forall g | g in d.grants ensures GrantPast(d, g) {
      assert g in c.grants ==> GrantPast(c, g);
    }
  }

  lemma CastKeepsBase(cfg: Config, c: Cluster, d: Cluster, n: NodeId, r: VoteRequest)
    requires BaseInv(cfg, c) && Casts(c, d, n, r)
    ensures BaseInv(cfg, d)
  {
    CastKeepsNodes(cfg, c, d, n, r);
    QuorumsStay(cfg, c, d);
    forall w | w in d.elected ensures WinnerKeepsVote(d, w) {
      assert WinnerKeepsVote(c, w);
    }
  }

  lemma CastKeepsVotes(cfg: Config, c: Cluster, d: Cluster, n: NodeId, r: VoteRequest)
    requires VoteInv(cfg, c) && Casts(c, d, n, r)
    ensures VoteInv(cfg, d)
  {
    CastKeepsBase(cfg, c, d, n, r);
    forall g | g in d.grants ensures VoteHeld(d, g) {
      assert g in c.grants ==> VoteHeld(c, g) && GrantPast(c, g);
    }
  }

  /** The node has not voted yet in the term it moves to. */
  lemma StartKeepsGrants(cfg: Config, c: Cluster, n: NodeId)
    requires BaseInv(cfg, c) && Enabled(cfg, c, StartStep(n))
    ensures var d := Start(cfg, c, n);
            && (forall g :: g in d.grants ==> GrantPast(d, g))
            && NoGrantBy(d, n, c.nodes[n].term + 1)
  {
    var d := Start(cfg, c, n);
    forall g | g in d.grants ensures GrantPast(d, g) && (g.voter == n ==> g.term < c.nodes[n].term + 1) {
      assert GrantPast(c, g);
    }
  }

  lemma StartKeepsNodes(cfg: Config, c: Cluster, n: NodeId)
    requires BaseInv(cfg, c) && Enabled(cfg, c, StartStep(n))
    ensures forall m :: m in Start(cfg, c, n).nodes ==> NodeOk(Start(cfg, c, n), m)
  {
    StartKeepsGrants(cfg, c, n);
    forall m | m in Start(cfg, c, n).nodes ensures NodeOk(Start(cfg, c, n), m) {
      StartKeepsNode(cfg, c, n, m);
    }
  }

  lemma StartKeepsNode(cfg: Config, c: Cluster, n: NodeId, m: NodeId)
    requires n in c.nodes && m in c.nodes && n !in c.pending && NodeOk(c, m) && NoGrantBy(c, n, c.nodes[n].term + 1)
    ensures NodeOk(Start(cfg, c, n), m)
  {
  }

  lemma StartKeepsWinners(cfg: Config, c: Cluster, n: NodeId)
    requires BaseInv(cfg, c) && Enabled(cfg, c, StartStep(n))
    ensures var d := Start(cfg, c, n);
            forall w :: w in d.elected ==> WinnerKeepsVote(d, w)
  {
    var d := Start(cfg, c, n);
    StartKeepsGrants(cfg, c, n);
    forall w | w in d.elected ensures WinnerKeepsVote(d, w) {
      if w in c.elected {
        StartKeepsWinner(cfg, c, n, w);
      } else {
        StartWins(cfg, c, n);
      }
    }
  }

  lemma StartKeepsWinner(cfg: Config, c: Cluster, n: NodeId, w: Won)
    requires n in c.nodes && n !in c.pending && WinnerKeepsVote(c, w)
    ensures WinnerKeepsVote(Start(cfg, c, n), w)
  {
  }

  lemma StartWins(cfg: Config, c: Cluster, n: NodeId)
    requires n in c.nodes && n !in c.pending && NoGrantBy(c, n, c.nodes[n].term + 1) && cfg.members - {n} == {}
    ensures WinnerKeepsVote(Start(cfg, c, n), Won(n, c.nodes[n].term + 1))
  {
  }

  lemma StartKeepsQuorums(cfg: Config, c: Cluster, n: NodeId)
    requires Shape(cfg, c) && n in c.nodes && forall w :: w in c.elected ==> Quorum(cfg, c, w)
    ensures var d := Start(cfg, c, n);
            forall w :: w in d.elected ==> Quorum(cfg, d, w)
  {
    QuorumsStay(cfg, c, Start(cfg, c, n));
    if cfg.members - {n} == {} {
      LoneQuorum(cfg, c, n);
    }
  }

  lemma LoneQuorum(cfg: Config, c: Cluster, n: NodeId)
    requires Shape(cfg, c) && n in c.nodes && cfg.members - {n} == {}
    ensures Quorum(cfg, Start(cfg, c, n), Won(n, c.nodes[n].term + 1))
  {
    assert cfg.members == {n};
    assert Voters(Start(cfg, c, n), Won(n, c.nodes[n].term + 1)) == {n};
  }

  lemma StartKeepsBase(cfg: Config, c: Cluster, n: NodeId)
    requires BaseInv(cfg, c) && Enabled(cfg, c, StartStep(n))
    ensures BaseInv(cfg, Start(cfg, c, n))
  {
    StartKeepsNodes(cfg, c, n);
    StartKeepsGrants(cfg, c, n);
    StartKeepsWinners(cfg, c, n);
    StartKeepsQuorums(cfg, c, n);
  }

  lemma StartKeepsHeld(cfg: Config, c: Cluster, n: NodeId)
    requires VoteInv(cfg, c) && Enabled(cfg, c, StartStep(n))
    ensures forall g :: g in c.grants ==> VoteHeld(Start(cfg, c, n), g)
  {
    var d := Start(cfg, c, n);
    forall g | g in c.grants ensures VoteHeld(d, g) {
      assert VoteHeld(c, g) && GrantPast(c, g);
    }
  }

  lemma StartKeepsVotes(cfg: Config, c: Cluster, n: NodeId)
    requires VoteInv(cfg, c) && Enabled(cfg, c, StartStep(n))
    ensures VoteInv(cfg, Start(cfg, c, n))
  {
    StartKeepsBase(cfg, c, n);
    StartKeepsHeld(cfg, c, n);
    assert Start(cfg, c, n).grants == c.grants;
  }

  lemma FinishKeepsNodes(cfg: Config, c: Cluster, n: NodeId, answers: seq<(NodeId, Response)>)
    requires BaseInv(cfg, c) && Enabled(cfg, c, FinishStep(n, answers))
    ensures var d := Finish(cfg, c, n, answers);
            && (forall m :: m in d.nodes ==> NodeOk(d, m))
            && (forall g :: g in d.grants ==> GrantPast(d, g))
  {
    var d := Finish(cfg, c, n, answers);
    FinishedNode(c.nodes[n], n, answers, Majority(cfg, n));
    forall m | m in d.nodes ensures NodeOk(d, m) {
      FinishKeepsNode(cfg, c, n, answers, m);
    }
    forall g | g in d.grants ensures GrantPast(d, g) {
      assert GrantPast(c, g);
    }
  }

  /** How the end of an election leaves its node. */
  predicate Finished(s: NodeState, t: NodeState, wins: bool) {
    && t.term >= s.term && t.log == s.log
    && (if wins then t.role == Leader && t.term == s.term && t.votedFor == s.votedFor
        else t.role == Follower && t.votedFor.None?)
  }

  lemma FinishedNode(s: NodeState, n: NodeId, answers: seq<(NodeId, Response)>, majority: nat)
    ensures Finished(s, FinishElection(s, n, Responses(answers), majority), Wins(s, Responses(answers), majority))
  {
  }

  lemma FinishKeepsNode(cfg: Config, c: Cluster, n: NodeId, answers: seq<(NodeId, Response)>, m: NodeId)
    requires n in c.nodes && n in cfg.views && m in c.nodes && NodeOk(c, m)
    ensures NodeOk(Finish(cfg, c, n, answers), m)
  {
    FinishedNode(c.nodes[n], n, answers, Majority(cfg, n));
  }

  lemma FinishKeepsWinners(cfg: Config, c: Cluster, n: NodeId, answers: seq<(NodeId, Response)>)
    requires BaseInv(cfg, c) && Enabled(cfg, c, FinishStep(n, answers))
    ensures var d := Finish(cfg, c, n, answers);
            forall w :: w in d.elected ==> WinnerKeepsVote(d, w)
  {
    var d := Finish(cfg, c, n, answers);
    assert NodeOk(c, n);
    FinishedNode(c.nodes[n], n, answers, Majority(cfg, n));
    forall w | w in d.elected ensures WinnerKeepsVote(d, w) {
      if w in c.elected {
        FinishKeepsWinner(cfg, c, n, answers, w);
      }
    }
  }

  lemma FinishKeepsWinner(cfg: Config, c: Cluster, n: NodeId, answers: seq<(NodeId, Response)>, w: Won)
    requires n in c.nodes && n in cfg.views && n in c.pending && NodeOk(c, n) && WinnerKeepsVote(c, w)
    ensures WinnerKeepsVote(Finish(cfg, c, n, answers), w)
  {
    FinishedNode(c.nodes[n], n, answers, Majority(cfg, n));
  }

  lemma FinishKeepsQuorums(cfg: Config, c: Cluster, n: NodeId, answers: seq<(NodeId, Response)>)
    requires Shape(cfg, c) && Enabled(cfg, c, FinishStep(n, answers)) && NodeOk(c, n)
    requires forall g :: g in c.grants ==> GrantPast(c, g)
    requires forall w :: w in c.elected ==> Quorum(cfg, c, w)
    ensures var d := Finish(cfg, c, n, answers);
            forall w :: w in d.elected ==> Quorum(cfg, d, w)
  {
    var d := Finish(cfg, c, n, answers);
    QuorumsStay(cfg, c, d);
    if Wins(c.nodes[n], Responses(answers), Majority(cfg, n)) {
      WinnerHasQuorum(cfg, c, n, answers);
      QuorumStays(cfg, c, d, Won(n, c.nodes[n].term));
    }
  }

  lemma FinishKeepsBase(cfg: Config, c: Cluster, n: NodeId, answers: seq<(NodeId, Response)>)
    requires BaseInv(cfg, c) && Enabled(cfg, c, FinishStep(n, answers))
    ensures BaseInv(cfg, Finish(cfg, c, n, answers))
  {
    FinishKeepsNodes(cfg, c, n, answers);
    FinishKeepsWinners(cfg, c, n, answers);
    FinishKeepsQuorums(cfg, c, n, answers);
  }

  lemma FinishKeepsVotes(cfg: Config, c: Cluster, n: NodeId, answers: seq<(NodeId, Response)>)
    requires VoteInv(cfg, c) && Enabled(cfg, c, FinishStep(n, answers)) && KeepsVote(cfg, c, FinishStep(n, answers))
    ensures VoteInv(cfg, Finish(cfg, c, n, answers))
  {
    FinishKeepsBase(cfg, c, n, answers);
    var d := Finish(cfg, c, n, answers);
    forall g | g in d.grants ensures VoteHeld(d, g) {
      FinishKeepsHeld(cfg, c, n, answers, g);
    }
  }

  lemma FinishKeepsHeld(cfg: Config, c: Cluster, n: NodeId, answers: seq<(NodeId, Response)>, g: Grant)
    requires n in c.nodes && n in cfg.views && VoteHeld(c, g) && GrantPast(c, g)
    requires KeepsVote(cfg, c, FinishStep(n, answers))
    ensures VoteHeld(Finish(cfg, c, n, answers), g)
  {
    FinishedNode(c.nodes[n], n, answers, Majority(cfg, n));
  }

  /** A step that neither starts nor ends an election is a quiet move of one node, followed by a
      cast vote when a vote is granted. `mid` is the cluster in between. */
  lemma SplitStep(cfg: Config, c: Cluster, step: Step) returns (mid: Cluster, t: NodeState)
    requires Enabled(cfg, c, step) && !step.StartStep? && !step.FinishStep?
    ensures OneNodeMoves(c, mid, step.node, t) && Quiet(c.nodes[step.node], t)
    ensures var d := Apply(cfg, c, step);
            || OneNodeMoves(c, d, step.node, t)
            || (step.VoteStep? && Casts(mid, d, step.node, step.request))
  {
    var n, s := step.node, c.nodes[step.node];
    HandlersQuiet(s);
    match step {
    case VoteStep(_, r) => t := AdoptTerm(s, r.term);
    case HeartbeatStep(_, leader, term) => t := ReceiveHeartbeat(s, leader, term);
    case CreateStep(_, command) => t := AppendEntry(s, command);
    case SendStep(_, _, _, _) => t := s; assert c.nodes[n := s] == c.nodes;
    case DeliverStep(_, m) =>
      t := AppendEntries(s, m.leader, m.term, m.PrevIndex(), m.PrevTerm(), m.Entries(), m.commit);
      AppendEntriesQuiet(s, m.leader, m.term, m.PrevIndex(), m.PrevTerm(), m.Entries(), m.commit);
    }
    mid := Put(c, n, t);
  }

  lemma StepKeepsBase(cfg: Config, c: Cluster, step: Step)
    requires BaseInv(cfg, c) && Enabled(cfg, c, step)
    ensures BaseInv(cfg, Apply(cfg, c, step))
  {
    if step.StartStep? {
      StartKeepsBase(cfg, c, step.node);
    } else if step.FinishStep? {
      FinishKeepsBase(cfg, c, step.node, step.answers);
    } else {
      var d := Apply(cfg, c, step);
      var mid, t := SplitStep(cfg, c, step);
      QuietKeepsBase(cfg, c, mid, step.node, t);
      if OneNodeMoves(c, d, step.node, t) {
        QuietKeepsBase(cfg, c, d, step.node, t);
      } else {
        CastKeepsBase(cfg, mid, d, step.node, step.request);
      }
    }
  }

  lemma StepKeepsVotes(cfg: Config, c: Cluster, step: Step)
    requires VoteInv(cfg, c) && Enabled(cfg, c, step) && KeepsVote(cfg, c, step)
    ensures VoteInv(cfg, Apply(cfg, c, step))
  {
    if step.StartStep? {
      StartKeepsVotes(cfg, c, step.node);
    } else if step.FinishStep? {
      FinishKeepsVotes(cfg, c, step.node, step.answers);
    } else {
      var d := Apply(cfg, c, step);
      var mid, t := SplitStep(cfg, c, step);
      QuietKeepsVotes(cfg, c, mid, step.node, t);
      if OneNodeMoves(c, d, step.node, t) {
        QuietKeepsVotes(cfg, c, d, step.node, t);
      } else {
        CastKeepsVotes(cfg, mid, d, step.node, step.request);
      }
    }
  }

  /** Exactly when the end of an election is harmless: it keeps every vote given in the current term
      if and only if the vote it clears, if any, is the node's own. */
  lemma FinishKeepsVotesIff(cfg: Config, c: Cluster, n: NodeId, answers: seq<(NodeId, Response)>)
    requires VoteInv(cfg, c) && Enabled(cfg, c, FinishStep(n, answers))
    ensures VoteInv(cfg, Finish(cfg, c, n, answers)) <==> KeepsVote(cfg, c, FinishStep(n, answers))
  {
    if KeepsVote(cfg, c, FinishStep(n, answers)) {
      StepKeepsVotes(cfg, c, FinishStep(n, answers));
    } else {
      var s := c.nodes[n];
      var g := Grant(n, s.votedFor.value, s.term);
      assert g in Finish(cfg, c, n, answers).grants;
    }
  }

  // ---------------------------------------------------------------- safety over runs

  lemma VotesGiveOneLeader(cfg: Config, c: Cluster)
    requires VoteInv(cfg, c)
    ensures OneLeaderPerTerm(c)
  {
    forall v, w | v in c.elected && w in c.elected && v.term == w.term ensures v.node == w.node {
      var x := Pigeonhole(Voters(c, v), Voters(c, w), cfg.members);
      assert WinnerKeepsVote(c, v) && WinnerKeepsVote(c, w);
    }
  }

  /** Every step of the run satisfies the guard. */
  ghost predicate VotesKept(cfg: Config, steps: seq<Step>)
    requires IsRun(cfg, Init(cfg), steps)
  {
    steps == [] ||
    (VotesKept(cfg, steps[..|steps| - 1])
     && KeepsVote(cfg, After(cfg, Init(cfg), steps[..|steps| - 1]), steps[|steps| - 1]))
  }

  lemma {:induction false} RunKeepsBase(cfg: Config, steps: seq<Step>)
    requires ValidConfig(cfg) && IsRun(cfg, Init(cfg), steps)
    ensures BaseInv(cfg, After(cfg, Init(cfg), steps))
  {
    if steps == [] {
      InitInv(cfg);
    } else {
      var front := steps[..|steps| - 1];
      RunKeepsBase(cfg, front);
      StepKeepsBase(cfg, After(cfg, Init(cfg), front), steps[|steps| - 1]);
    }
  }

  lemma {:induction false} RunKeepsVotes(cfg: Config, steps: seq<Step>)
    requires ValidConfig(cfg) && IsRun(cfg, Init(cfg), steps) && VotesKept(cfg, steps)
    ensures VoteInv(cfg, After(cfg, Init(cfg), steps))
  {
    if steps == [] {
      InitInv(cfg);
    } else {
      var front := steps[..|steps| - 1];
      RunKeepsVotes(cfg, front);
      StepKeepsVotes(cfg, After(cfg, Init(cfg), front), steps[|steps| - 1]);
    }
  }

  /** Election safety for any number of nodes, any interleaving and any message losses. */
  lemma ElectionSafe(cfg: Config, steps: seq<Step>)
    requires ValidConfig(cfg) && IsRun(cfg, Init(cfg), steps) && VotesKept(cfg, steps)
    ensures OneLeaderPerTerm(After(cfg, Init(cfg), steps))
  {
    RunKeepsVotes(cfg, steps);
    VotesGiveOneLeader(cfg, After(cfg, Init(cfg), steps));
  }

  /** No node leaves the term of its election before that election ends. */
  ghost predicate ElectionsKeepTerm(cfg: Config, steps: seq<Step>)
    requires IsRun(cfg, Init(cfg), steps)
  {
    steps == [] ||
    (ElectionsKeepTerm(cfg, steps[..|steps| - 1])
     && var c, step := After(cfg, Init(cfg), steps[..|steps| - 1]), steps[|steps| - 1];
        step.FinishStep? && step.node in c.nodes && step.node in c.pending ==>
          c.nodes[step.node].term == c.pending[step.node])
  }

  lemma {:induction false} KeepingTermKeepsVotes(cfg: Config, steps: seq<Step>)
    requires ValidConfig(cfg) && IsRun(cfg, Init(cfg), steps) && ElectionsKeepTerm(cfg, steps)
    ensures VotesKept(cfg, steps)
  {
    if steps != [] {
      var front := steps[..|steps| - 1];
      KeepingTermKeepsVotes(cfg, front);
      RunKeepsBase(cfg, front);
    }
  }

  /** Election safety when no node changes term while its own election is in progress. */
  lemma ElectionSafeWhenTermsKept(cfg: Config, steps: seq<Step>)
    requires ValidConfig(cfg) && IsRun(cfg, Init(cfg), steps) && ElectionsKeepTerm(cfg, steps)
    ensures OneLeaderPerTerm(After(cfg, Init(cfg), steps))
  {
    KeepingTermKeepsVotes(cfg, steps);
    ElectionSafe(cfg, steps);
  }

  /** With at most two nodes a leader has every node's vote. */
  lemma SmallOneLeader(cfg: Config, c: Cluster)
    requires BaseInv(cfg, c) && |cfg.members| <= 2
    ensures OneLeaderPerTerm(c)
  {
    forall v, w | v in c.elected && w in c.elected && v.term == w.term ensures v.node == w.node {
      assert WinnerKeepsVote(c, v) && WinnerKeepsVote(c, w);
      assert Quorum(cfg, c, v);
      SubsetCard(Voters(c, v), cfg.members);
      assert w.node in Voters(c, v);
    }
  }

  /** So the guard is not needed there. */
  lemma SmallClustersSafe(cfg: Config, steps: seq<Step>)
    requires ValidConfig(cfg) && IsRun(cfg, Init(cfg), steps) && |cfg.members| <= 2
    ensures OneLeaderPerTerm(After(cfg, Init(cfg), steps))
  {
    RunKeepsBase(cfg, steps);
    SmallOneLeader(cfg, After(cfg, Init(cfg), steps));
  }
}
