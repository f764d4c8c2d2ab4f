/** Without the guard of LogMatching two logs really come to differ below an entry they share, in every
    cluster of three or more nodes. The run: a leads term 1 and creates two entries; b, whose log is empty,
    leads term 2 and creates one; a leads term 3 and replicates its log to d; b leads term 4 and sends its
    entry to a, where it replaces the first entry and leaves the second one, which d holds too, on top of
    it. Every election is won with the votes of all nodes but a and b. */
module LogDivergence {
  import opened Prelude
  import opened RaftNodes
  import opened RaftClusters
  import opened ElectionSafety
  import opened RaftRuns
  import opened LogMatching

  /** A set of clusters that holds all that steps which keep votes lead to. */
  ghost predicate Closed(cfg: Config, reach: iset<Cluster>) {
    forall c, step :: c in reach && Enabled(cfg, c, step) && KeepsVote(cfg, c, step) ==> Apply(cfg, c, step) in reach
  }

  lemma Take(cfg: Config, reach: iset<Cluster>, c: Cluster, step: Step) returns (d: Cluster)
    requires Closed(cfg, reach) && c in reach && Enabled(cfg, c, step) && KeepsVote(cfg, c, step)
    ensures d == Apply(cfg, c, step) && d in reach
  {
    d := Apply(cfg, c, step);
  }

  ghost predicate LeadsTo(cfg: Config, steps: seq<Step>, c: Cluster) {
    IsRun(cfg, Init(cfg), steps) && VotesKept(cfg, steps) && After(cfg, Init(cfg), steps) == c
  }

  ghost predicate Reached(cfg: Config, c: Cluster) {
    exists steps :: LeadsTo(cfg, steps, c)
  }

  /** The clusters that runs lead to which keep votes. */
  ghost function Reachable(cfg: Config): iset<Cluster> {
    iset c: Cluster | Reached(cfg, c)
  }

  lemma ReachableClosed(cfg: Config)
    ensures Closed(cfg, Reachable(cfg)) && Init(cfg) in Reachable(cfg)
  {
    assert LeadsTo(cfg, [], Init(cfg));
    assert Reached(cfg, Init(cfg));
    forall c, step | c in Reachable(cfg) && Enabled(cfg, c, step) && KeepsVote(cfg, c, step)
      ensures Apply(cfg, c, step) in Reachable(cfg)
    {
      var steps :| LeadsTo(cfg, steps, c);
      Extend(cfg, steps, step);
      assert LeadsTo(cfg, steps + [step], Apply(cfg, c, step));
      assert Reached(cfg, Apply(cfg, c, step));
    }
  }

  // ---------------------------------------------------------------- one election

  ghost predicate Within(cfg: Config, c: Cluster, term: int) {
    c.nodes.Keys == cfg.members && forall n :: n in c.nodes ==> c.nodes[n].term <= term
  }

  /** No election is in progress, and no node is beyond `term`. */
  ghost predicate Calm(cfg: Config, c: Cluster, term: int) {
    Within(cfg, c, term) && c.pending == map[]
  }

  ghost predicate Campaigns(cfg: Config, c: Cluster, n: NodeId, term: int) {
    && Within(cfg, c, term) && n in c.nodes && c.pending == map[n := term]
    && c.nodes[n].role == Candidate && c.nodes[n].term == term
    && RequestOf(c.nodes[n], n) in c.requests
  }

  ghost predicate SameLogs(c: Cluster, d: Cluster) {
    d.nodes.Keys == c.nodes.Keys && forall n :: n in c.nodes ==> d.nodes[n].log == c.nodes[n].log
  }

  /** x has not reached `term` and finds n's log as up to date as its own. */
  ghost predicate Supports(c: Cluster, x: NodeId, n: NodeId, term: int)
    requires n in c.nodes
  {
    && x in c.nodes && x != n && c.nodes[x].term < term
    && UpToDate(c.nodes[x].log, |c.nodes[n].log| - 1, LastLogTerm(c.nodes[n].log))
  }

  /** n hears of the term before, and follows even if it has led. */
  lemma Demote(cfg: Config, reach: iset<Cluster>, c: Cluster, n: NodeId, term: int) returns (d: Cluster)
    requires Closed(cfg, reach)
    requires ValidConfig(cfg) && c in reach && Calm(cfg, c, term) && n in c.nodes
    ensures d in reach && Calm(cfg, d, term) && d.nodes == c.nodes[n := d.nodes[n]]
    ensures d.nodes[n].log == c.nodes[n].log && d.nodes[n].role == Follower && d.nodes[n].term == term
  {
    d := Take(cfg, reach, c, HeartbeatStep(n, n, term));
  }

  lemma StartCampaigns(cfg: Config, c: Cluster, n: NodeId, term: int)
    requires Calm(cfg, c, term - 1) && n in c.nodes && c.nodes[n].term == term - 1 && |cfg.members| >= 2
    ensures Campaigns(cfg, Start(cfg, c, n), n, term)
  {
    HasPeers(cfg, n);
  }

  lemma Campaign(cfg: Config, reach: iset<Cluster>, c: Cluster, n: NodeId, term: int) returns (d: Cluster)
    requires Closed(cfg, reach) && ValidConfig(cfg) && |cfg.members| >= 2
    requires c in reach && Calm(cfg, c, term - 1) && n in c.nodes
    ensures d in reach && Campaigns(cfg, d, n, term) && d.nodes == c.nodes[n := d.nodes[n]]
    ensures d.nodes[n].log == c.nodes[n].log
  {
    var mid := Demote(cfg, reach, c, n, term - 1);
    StartCampaigns(cfg, mid, n, term);
    d := Take(cfg, reach, mid, StartStep(n));
  }

  /** One supporter gives its vote. */
  lemma VoteHelps(cfg: Config, c: Cluster, n: NodeId, term: int, x: NodeId)
    requires Campaigns(cfg, c, n, term) && Supports(c, x, n, term)
    ensures var d := Vote(c, x, RequestOf(c.nodes[n], n));
            && Campaigns(cfg, d, n, term) && SameLogs(c, d) && d.nodes == c.nodes[x := d.nodes[x]]
            && Grant(x, n, term) in d.grants && c.grants <= d.grants
  {
  }

  lemma CollectVote(cfg: Config, reach: iset<Cluster>, c: Cluster, n: NodeId, term: int, x: NodeId)
    returns (d: Cluster)
    requires Closed(cfg, reach)
    requires ValidConfig(cfg) && c in reach && Campaigns(cfg, c, n, term) && Supports(c, x, n, term)
    ensures d in reach && Campaigns(cfg, d, n, term) && SameLogs(c, d) && d.nodes == c.nodes[x := d.nodes[x]]
    ensures Grant(x, n, term) in d.grants && c.grants <= d.grants
  {
    VoteHelps(cfg, c, n, term, x);
    d := Take(cfg, reach, c, VoteStep(x, RequestOf(c.nodes[n], n)));
  }

  lemma {:induction false} CollectVotes(cfg: Config, reach: iset<Cluster>, c: Cluster, n: NodeId, term: int,
                                        xs: seq<NodeId>)
    returns (d: Cluster)
    requires Closed(cfg, reach)
    requires ValidConfig(cfg) && c in reach && Campaigns(cfg, c, n, term)
    requires NoDup(xs) && forall x :: x in xs ==> Supports(c, x, n, term)
    ensures d in reach && Campaigns(cfg, d, n, term) && SameLogs(c, d)
    ensures c.grants <= d.grants && forall x :: x in xs ==> x in d.nodes && Grant(x, n, term) in d.grants
    decreases |xs|
  {
    if xs == [] {
      d := c;
    } else {
      assert Supports(c, xs[0], n, term);
      var mid := CollectVote(cfg, reach, c, n, term, xs[0]);
      forall y | y in xs[1..] ensures Supports(mid, y, n, term) {
        assert Supports(c, y, n, term);
      }
      d := CollectVotes(cfg, reach, mid, n, term, xs[1..]);
    }
  }

  lemma YesWins(cfg: Config, c: Cluster, n: NodeId, term: int, xs: seq<NodeId>)
    requires Campaigns(cfg, c, n, term) && n in cfg.views && |xs| + 1 >= Majority(cfg, n)
    ensures var d := Finish(cfg, c, n, Yes(xs, term));
            && Calm(cfg, d, term) && d.nodes == c.nodes[n := BecomeLeader(c.nodes[n], n)]
    ensures Wins(c.nodes[n], Responses(Yes(xs, term)), Majority(cfg, n))
  {
    YesCounts(term, xs, 1);
    assert c.pending - {n} == map[];
  }

  lemma Conclude(cfg: Config, reach: iset<Cluster>, c: Cluster, n: NodeId, term: int, xs: seq<NodeId>)
    returns (d: Cluster)
    requires Closed(cfg, reach)
    requires ValidConfig(cfg) && c in reach && Campaigns(cfg, c, n, term)
    requires NoDup(xs) && n !in xs && |xs| + 1 >= Majority(cfg, n)
    requires forall x :: x in xs ==> x in c.nodes && Grant(x, n, term) in c.grants
    ensures d in reach && Calm(cfg, d, term) && d.nodes == c.nodes[n := BecomeLeader(c.nodes[n], n)]
  {
    YesWins(cfg, c, n, term, xs);
    assert RealAnswers(c, n, Yes(xs, term));
    d := Take(cfg, reach, c, FinishStep(n, Yes(xs, term)));
  }

  /** n becomes leader of `term` with the votes of xs. */
  lemma Elect(cfg: Config, reach: iset<Cluster>, c: Cluster, n: NodeId, term: int, xs: seq<NodeId>)
    returns (d: Cluster)
    requires Closed(cfg, reach)
    requires DistinctViews(cfg) && n in c.nodes && |cfg.members| >= 2 && |xs| >= |cfg.members| / 2
    requires c in reach && Calm(cfg, c, term - 1)
    requires NoDup(xs) && forall x :: x in xs ==> Supports(c, x, n, term)
    ensures d in reach && Calm(cfg, d, term) && SameLogs(c, d)
    ensures d.nodes[n].role == Leader && d.nodes[n].term == term
  {
    var one := Campaign(cfg, reach, c, n, term);
    SupportStays(c, one, n, term, xs);
    var two := CollectVotes(cfg, reach, one, n, term, xs);
    d := Conclude(cfg, reach, two, n, term, xs);
  }

  lemma SupportStays(c: Cluster, d: Cluster, n: NodeId, term: int, xs: seq<NodeId>)
    requires n in c.nodes && n in d.nodes && d.nodes == c.nodes[n := d.nodes[n]] && d.nodes[n].log == c.nodes[n].log
    requires forall x :: x in xs ==> Supports(c, x, n, term)
    ensures forall x :: x in xs ==> Supports(d, x, n, term)
    ensures n !in xs
  {
    forall x | x in xs ensures Supports(d, x, n, term) && x != n {
      assert Supports(c, x, n, term);
    }
  }

  // ---------------------------------------------------------------- entries

  lemma AddEntry(cfg: Config, reach: iset<Cluster>, c: Cluster, n: NodeId, term: int, command: Command)
    returns (d: Cluster)
    requires Closed(cfg, reach)
    requires ValidConfig(cfg) && c in reach && Calm(cfg, c, term) && n in c.nodes
    requires c.nodes[n].role == Leader && c.nodes[n].term == term
    ensures d in reach && Calm(cfg, d, term) && d.nodes == c.nodes[n := d.nodes[n]]
    ensures d.nodes[n].role == Leader && d.nodes[n].term == term
    ensures d.nodes[n].log == c.nodes[n].log + [LogEntry(term, |c.nodes[n].log|, command)]
  {
    d := Take(cfg, reach, c, CreateStep(n, command));
  }

  lemma SendWhole(cfg: Config, reach: iset<Cluster>, c: Cluster, n: NodeId, term: int) returns (d: Cluster)
    requires Closed(cfg, reach)
    requires ValidConfig(cfg) && c in reach && Calm(cfg, c, term) && n in c.nodes
    requires c.nodes[n].role == Leader && c.nodes[n].term == term
    ensures d in reach && Calm(cfg, d, term) && d.nodes == c.nodes
    ensures AppendMsg(n, term, c.nodes[n].log, 0, 0) in d.appends
  {
    var log := c.nodes[n].log;
    assert log[..|log|] == log;
    d := Take(cfg, reach, c, SendStep(n, 0, |log|, 0));
  }

  /** The whole log of the leader n reaches x. */
  lemma Replicate(cfg: Config, reach: iset<Cluster>, c: Cluster, n: NodeId, x: NodeId, term: int)
    returns (d: Cluster)
    requires Closed(cfg, reach)
    requires ValidConfig(cfg) && c in reach && Calm(cfg, c, term) && n in c.nodes && x in c.nodes && n != x
    requires c.nodes[n].role == Leader && c.nodes[n].term == term
    ensures d in reach && Calm(cfg, d, term) && d.nodes == c.nodes[x := d.nodes[x]]
    ensures d.nodes[x].log == Merge(c.nodes[x].log, c.nodes[n].log)
  {
    var m := AppendMsg(n, term, c.nodes[n].log, 0, 0);
    assert m.basis[m.from..] == m.basis;
    var mid := SendWhole(cfg, reach, c, n, term);
    DeliveredLog(c.nodes[x], m);
    d := Take(cfg, reach, mid, DeliverStep(x, m));
  }

  // ---------------------------------------------------------------- the run

  function Pair(p: Command, q: Command): seq<LogEntry> {
    [LogEntry(1, 0, p), LogEntry(1, 1, q)]
  }

  function Single(r: Command): seq<LogEntry> {
    [LogEntry(2, 0, r)]
  }

  /** The logs of a and b; all others are empty. */
  ghost predicate Logs(c: Cluster, a: NodeId, la: seq<LogEntry>, b: NodeId, lb: seq<LogEntry>) {
    && a in c.nodes && b in c.nodes && c.nodes[a].log == la && c.nodes[b].log == lb
    && forall x :: x in c.nodes && x != a && x != b ==> c.nodes[x].log == []
  }

  ghost predicate Parts(cfg: Config, a: NodeId, b: NodeId, xs: seq<NodeId>) {
    && DistinctViews(cfg) && a in cfg.members && b in cfg.members && a != b
    && NoDup(xs) && a !in xs && b !in xs && |xs| >= 1 && |xs| == |cfg.members| - 2
    && forall x :: x in xs ==> x in cfg.members
  }

  /** n is elected when its log is as up to date as those of xs. */
  lemma ElectBy(cfg: Config, reach: iset<Cluster>, c: Cluster, a: NodeId, b: NodeId, xs: seq<NodeId>, n: NodeId,
                term: int)
    returns (d: Cluster)
    requires Closed(cfg, reach)
    requires Parts(cfg, a, b, xs) && n in {a, b} && c in reach && Calm(cfg, c, term - 1)
    requires forall x :: x in xs ==>
               x in c.nodes && UpToDate(c.nodes[x].log, |c.nodes[n].log| - 1, LastLogTerm(c.nodes[n].log))
    ensures d in reach && Calm(cfg, d, term) && SameLogs(c, d)
    ensures d.nodes[n].role == Leader && d.nodes[n].term == term
  {
    forall x | x in xs ensures Supports(c, x, n, term) {
      assert c.nodes[x].term <= term - 1;
    }
    d := Elect(cfg, reach, c, n, term, xs);
  }

  /** Term 1: a creates two entries. */
  lemma FirstTerm(cfg: Config, reach: iset<Cluster>, a: NodeId, b: NodeId, xs: seq<NodeId>, p: Command, q: Command)
    returns (d: Cluster)
    requires Closed(cfg, reach)
    requires Parts(cfg, a, b, xs) && Init(cfg) in reach
    ensures d in reach && Calm(cfg, d, 1) && Logs(d, a, Pair(p, q), b, [])
  {
    var one := ElectBy(cfg, reach, Init(cfg), a, b, xs, a, 1);
    d := AddPair(cfg, reach, one, a, p, q);
  }

  lemma AddPair(cfg: Config, reach: iset<Cluster>, c: Cluster, n: NodeId, p: Command, q: Command)
    returns (d: Cluster)
    requires Closed(cfg, reach)
    requires ValidConfig(cfg) && c in reach && Calm(cfg, c, 1) && n in c.nodes
    requires c.nodes[n].role == Leader && c.nodes[n].term == 1 && c.nodes[n].log == []
    ensures d in reach && Calm(cfg, d, 1) && d.nodes == c.nodes[n := d.nodes[n]] && d.nodes[n].log == Pair(p, q)
  {
    var mid := AddEntry(cfg, reach, c, n, 1, p);
    d := AddEntry(cfg, reach, mid, n, 1, q);
  }

  /** Term 2: b creates one entry. */
  lemma SecondTerm(cfg: Config, reach: iset<Cluster>, c: Cluster, a: NodeId, b: NodeId, xs: seq<NodeId>,
                   la: seq<LogEntry>, r: Command)
    returns (d: Cluster)
    requires Closed(cfg, reach)
    requires Parts(cfg, a, b, xs) && c in reach && Calm(cfg, c, 1) && Logs(c, a, la, b, [])
    ensures d in reach && Calm(cfg, d, 2) && Logs(d, a, la, b, Single(r))
  {
    assert forall x :: x in xs ==> x in c.nodes && c.nodes[x].log == [];
    var one := ElectBy(cfg, reach, c, a, b, xs, b, 2);
    d := AddEntry(cfg, reach, one, b, 2, r);
  }

  /** Term 3: a replicates its entries to the first of the others. */
  lemma ThirdTerm(cfg: Config, reach: iset<Cluster>, c: Cluster, a: NodeId, b: NodeId, xs: seq<NodeId>,
                  la: seq<LogEntry>, lb: seq<LogEntry>)
    returns (d: Cluster)
    requires Closed(cfg, reach)
    requires Parts(cfg, a, b, xs) && c in reach && Calm(cfg, c, 2) && Logs(c, a, la, b, lb)
    requires LastLogTerm(la) == 1
    ensures d in reach && Calm(cfg, d, 3) && a in d.nodes && b in d.nodes
    ensures d.nodes[a].log == la && d.nodes[b].log == lb
    ensures forall x :: x in xs ==> x in d.nodes && d.nodes[x].log == if x == xs[0] then Merge([], la) else []
  {
    var one := ElectBy(cfg, reach, c, a, b, xs, a, 3);
    assert xs[0] in xs;
    assert forall x :: x in xs ==> x in one.nodes && one.nodes[x].log == [];
    d := Replicate(cfg, reach, one, a, xs[0], 3);
  }

  /** Term 4: b sends its entry to a. */
  lemma FourthTerm(cfg: Config, reach: iset<Cluster>, c: Cluster, a: NodeId, b: NodeId, xs: seq<NodeId>)
    returns (d: Cluster)
    requires Closed(cfg, reach)
    requires Parts(cfg, a, b, xs) && c in reach && Calm(cfg, c, 3)
    requires forall x :: x in xs ==> x in c.nodes && LastLogTerm(c.nodes[x].log) < LastLogTerm(c.nodes[b].log)
    ensures d in reach && a in d.nodes && b in d.nodes && xs[0] in d.nodes
    ensures d.nodes[a].log == Merge(c.nodes[a].log, c.nodes[b].log) && d.nodes[xs[0]].log == c.nodes[xs[0]].log
  {
    var one := ElectBy(cfg, reach, c, a, b, xs, b, 4);
    assert xs[0] in xs;
    d := Replicate(cfg, reach, one, b, a, 4);
  }

  lemma MergeOfPair(p: Command, q: Command)
    ensures Merge([], Pair(p, q)) == Pair(p, q)
  {
    assert MergeFirst([], Pair(p, q), 1) == [Pair(p, q)[0]];
  }

  lemma MergeOverPair(p: Command, q: Command, r: Command)
    ensures Merge(Pair(p, q), Single(r)) == [LogEntry(2, 0, r), LogEntry(1, 1, q)]
  {
    assert MergeFirst(Pair(p, q), Single(r), 1) == Pair(p, q)[0 := LogEntry(2, 0, r)];
  }

  lemma Diverged(c: Cluster, a: NodeId, d: NodeId, p: Command, q: Command, r: Command)
    requires a in c.nodes && d in c.nodes
    requires c.nodes[a].log == [LogEntry(2, 0, r), LogEntry(1, 1, q)] && c.nodes[d].log == Pair(p, q)
    ensures !LogsMatch(c)
  {
    var la, ld := c.nodes[a].log, c.nodes[d].log;
    assert la[1].term == ld[1].term && la[..1 + 1][0].term != ld[..1 + 1][0].term;
  }

  lemma TwoTerms(cfg: Config, reach: iset<Cluster>, a: NodeId, b: NodeId, xs: seq<NodeId>,
                 p: Command, q: Command, r: Command) returns (d: Cluster)
    requires Closed(cfg, reach) && Init(cfg) in reach && Parts(cfg, a, b, xs)
    ensures d in reach && Calm(cfg, d, 2) && Logs(d, a, Pair(p, q), b, Single(r))
  {
    var one := FirstTerm(cfg, reach, a, b, xs, p, q);
    d := SecondTerm(cfg, reach, one, a, b, xs, Pair(p, q), r);
  }

  lemma FourTerms(cfg: Config, reach: iset<Cluster>, a: NodeId, b: NodeId, xs: seq<NodeId>,
                  p: Command, q: Command, r: Command) returns (d: Cluster)
    requires Closed(cfg, reach) && Init(cfg) in reach && Parts(cfg, a, b, xs)
    ensures d in reach && !LogsMatch(d)
  {
    var two := TwoTerms(cfg, reach, a, b, xs, p, q, r);
    var three := ThirdTerm(cfg, reach, two, a, b, xs, Pair(p, q), Single(r));
    MergeOfPair(p, q);
    d := FourthTerm(cfg, reach, three, a, b, xs);
    MergeOverPair(p, q, r);
    assert xs[0] in xs;
    Diverged(d, a, xs[0], p, q, r);
  }

  /** Log Matching is false of the code in every cluster of three or more nodes, even in runs that keep
      every vote. */
  lemma LogsDiverge(cfg: Config) returns (steps: seq<Step>)
    requires DistinctViews(cfg) && |cfg.members| >= 3
    ensures IsRun(cfg, Init(cfg), steps) && VotesKept(cfg, steps)
    ensures !LogsMatch(After(cfg, Init(cfg), steps))
  {
    var a, b, xs := ThreeParts(cfg);
    ReachableClosed(cfg);
    var d := FourTerms(cfg, Reachable(cfg), a, b, xs, OtherCmd("p"), OtherCmd("q"), OtherCmd("r"));
    steps :| LeadsTo(cfg, steps, d);
  }
}
