/** Log Matching in clusters of at most two nodes: it holds in every run. A leader has the other node's
    vote, so the other node's log is a prefix of its own, and stays one until both have moved on to later
    terms. Together with the run of LogDivergence this gives the exact size up to which the code is safe. */
module TwoNodeLogs {
  import opened Prelude
  import opened RaftNodes
  import opened RaftClusters
  import opened ElectionSafety
  import opened RaftRuns
  import opened LogMatching
  import opened LogDivergence
  import SingleLeader

  // ---------------------------------------------------------------- comparing logs

  /** Terms never fall along the log and stay within `term`. */
  ghost predicate Rising(log: seq<LogEntry>, term: int) {
    && (forall k :: 0 <= k < |log| ==> 0 <= log[k].term <= term)
    && (forall j, k :: 0 <= j < k < |log| ==> log[j].term <= log[k].term)
  }

  /** The log is at least as far as one that ends with an entry of this index and term. */
  predicate AtLeast(log: seq<LogEntry>, lastIndex: int, lastTerm: int) {
    LastLogTerm(log) > lastTerm || (LastLogTerm(log) == lastTerm && |log| - 1 >= lastIndex)
  }

  /** The vote rule between two logs. */
  predicate Behind(a: seq<LogEntry>, b: seq<LogEntry>) {
    UpToDate(a, |b| - 1, LastLogTerm(b))
  }

  lemma {:induction false} LongerIsAtLeast(a: seq<LogEntry>, b: seq<LogEntry>, term: int, i: int, t: int)
    requires a <= b && Rising(b, term) && AtLeast(a, i, t)
    ensures AtLeast(b, i, t)
  {
    assert a != [] ==> a[|a| - 1] == b[|a| - 1];
  }

  lemma {:induction false} PrefixIsBehind(a: seq<LogEntry>, b: seq<LogEntry>, term: int)
    requires a <= b && Rising(b, term)
    ensures Behind(a, b)
  {
    assert a != [] ==> a[|a| - 1] == b[|a| - 1];
  }

  lemma {:induction false} BehindLonger(a: seq<LogEntry>, b: seq<LogEntry>, c: seq<LogEntry>, term: int)
    requires Behind(a, b) && b <= c && Rising(c, term)
    ensures Behind(a, c)
  {
    assert b != [] ==> b[|b| - 1] == c[|b| - 1];
  }

  /** Of two comparable logs the one behind is the prefix. */
  lemma {:induction false} BehindIsPrefix(a: seq<LogEntry>, b: seq<LogEntry>, term: int)
    requires Behind(a, b) && (a <= b || b <= a) && Rising(a, term)
    ensures a <= b
  {
    if b <= a {
      assert b != [] ==> b[|b| - 1] == a[|b| - 1];
      assert |b| >= |a|;
    }
  }

  // ---------------------------------------------------------------- the invariant

  ghost predicate LogOk(c: Cluster, n: NodeId)
    requires n in c.nodes
  {
    0 <= c.nodes[n].term && Indexed(c.nodes[n].log) && Rising(c.nodes[n].log, c.nodes[n].term)
  }

  ghost predicate Comparable(c: Cluster, n: NodeId, v: NodeId)
    requires n in c.nodes && v in c.nodes
  {
    c.nodes[n].log <= c.nodes[v].log || c.nodes[v].log <= c.nodes[n].log
  }

  /** While a candidate is in the term of its request, its log is at least what the request says. */
  ghost predicate RequestOk(c: Cluster, r: VoteRequest) {
    && r.candidate in c.nodes && r.term <= c.nodes[r.candidate].term
    && (r.term == c.nodes[r.candidate].term ==>
          AtLeast(c.nodes[r.candidate].log, r.lastLogIndex, r.lastLogTerm))
  }

  /** While a candidate is in the term of a vote it got, its voter is behind. */
  ghost predicate GrantOk(c: Cluster, g: Grant) {
    && g.candidate in c.nodes && g.voter in c.nodes && g.term <= c.nodes[g.candidate].term
    && (g.term == c.nodes[g.candidate].term ==> Behind(c.nodes[g.voter].log, c.nodes[g.candidate].log))
  }

  ghost predicate InTerm(c: Cluster, n: NodeId, v: NodeId, term: int)
    requires n in c.nodes && v in c.nodes
  {
    c.nodes[n].term == term || c.nodes[v].term == term
  }

  /** While one of the two is in the term, the other's log is a prefix of the winner's. */
  ghost predicate WonOk(c: Cluster, w: Won) {
    && w.node in c.nodes
    && forall v :: v in c.nodes && v != w.node && InTerm(c, w.node, v, w.term) ==>
         c.nodes[v].log <= c.nodes[w.node].log
  }

  ghost predicate AppendOk(c: Cluster, m: AppendMsg) {
    && m.Slice() && m.leader in c.nodes && Won(m.leader, m.term) in c.elected && Rising(m.basis, m.term)
    && forall v :: v in c.nodes && v != m.leader && InTerm(c, m.leader, v, m.term) ==>
         m.basis <= c.nodes[m.leader].log
  }

  ghost predicate LogsOk(c: Cluster) {
    && (forall n :: n in c.nodes ==> LogOk(c, n))
    && (forall n, v :: n in c.nodes && v in c.nodes ==> Comparable(c, n, v))
  }

  ghost predicate TwoOk(c: Cluster) {
    && LogsOk(c)
    && (forall r :: r in c.requests ==> RequestOk(c, r))
    && (forall g :: g in c.grants ==> GrantOk(c, g))
    && (forall w :: w in c.elected ==> WonOk(c, w))
    && (forall m :: m in c.appends ==> AppendOk(c, m))
  }

  // ---------------------------------------------------------------- winners and the other node

  /** The other node voted for the winner and is past its term. */
  ghost predicate OtherVoted(c: Cluster, w: Won, v: NodeId)
    requires v in c.nodes
  {
    && Grant(v, w.node, w.term) in c.grants
    && w.node in c.nodes && w.term <= c.nodes[v].term && w.term <= c.nodes[w.node].term
    && NoGrantBy(c, w.node, w.term)
  }

  /** What elections guarantee among at most two nodes. */
  ghost predicate Paired(c: Cluster) {
    && |c.nodes.Keys| <= 2
    && (forall w, v :: w in c.elected && v in c.nodes && v != w.node ==> OtherVoted(c, w, v))
    && OneLeaderPerTerm(c)
    && (forall g :: g in c.grants ==> GrantPast(c, g))
    && (forall n :: n in c.nodes && c.nodes[n].role == Leader ==> Won(n, c.nodes[n].term) in c.elected)
  }

  lemma BaseIsPaired(cfg: Config, c: Cluster)
    requires BaseInv(cfg, c) && |cfg.members| <= 2
    ensures Paired(c)
  {
    SmallOneLeader(cfg, c);
    forall n | n in c.nodes && c.nodes[n].role == Leader ensures Won(n, c.nodes[n].term) in c.elected {
      assert NodeOk(c, n);
    }
    forall w, v | w in c.elected && v in c.nodes && v != w.node ensures OtherVoted(c, w, v) {
      AllVoted(cfg, c, w, v);
    }
  }

  lemma AllVoted(cfg: Config, c: Cluster, w: Won, v: NodeId)
    requires BaseInv(cfg, c) && |cfg.members| <= 2 && w in c.elected && v in c.nodes && v != w.node
    ensures OtherVoted(c, w, v)
  {
    assert WinnerKeepsVote(c, w) && Quorum(cfg, c, w);
    SubsetCard(Voters(c, w), cfg.members);
    assert v in Voters(c, w);
    assert GrantPast(c, Grant(v, w.node, w.term));
  }

  lemma OnlyTwo(nodes: set<NodeId>, x: NodeId, y: NodeId)
    requires |nodes| <= 2 && x in nodes && y in nodes && x != y
    ensures nodes == {x, y}
  {
    SubsetCard({x, y}, nodes);
  }

  /** With a winner n in the current term of either node, nothing that the other node x ever won binds
      the two. */
  lemma OtherWonEarlier(c: Cluster, n: NodeId, x: NodeId, term: int, w: Won)
    requires Paired(c) && n in c.nodes && x in c.nodes && n != x
    requires Won(n, term) in c.elected && (c.nodes[x].term == term || c.nodes[n].term == term)
    requires w in c.elected && w.node == x
    ensures !InTerm(c, x, n, w.term)
  {
    assert OtherVoted(c, Won(n, term), x) && OtherVoted(c, w, n);
  }

  // ---------------------------------------------------------------- steps that leave the logs alone

  ghost predicate LogsStay(c: Cluster, d: Cluster) {
    && d.nodes.Keys == c.nodes.Keys && c.elected <= d.elected
    && forall n :: n in c.nodes ==> d.nodes[n].log == c.nodes[n].log && d.nodes[n].term >= c.nodes[n].term
  }

  lemma StayKeepsLogs(c: Cluster, d: Cluster)
    requires LogsOk(c) && LogsStay(c, d)
    ensures LogsOk(d)
  {
    forall n | n in d.nodes ensures LogOk(d, n) {
      assert LogOk(c, n);
    }
    forall n, v | n in d.nodes && v in d.nodes ensures Comparable(d, n, v) {
      assert Comparable(c, n, v);
    }
  }

  lemma StayKeepsRequest(c: Cluster, d: Cluster, r: VoteRequest)
    requires LogsStay(c, d) && RequestOk(c, r)
    ensures RequestOk(d, r)
  {
  }

  lemma StayKeepsGrant(c: Cluster, d: Cluster, g: Grant)
    requires LogsStay(c, d) && GrantOk(c, g)
    ensures GrantOk(d, g)
  {
  }

  lemma StayKeepsWon(c: Cluster, d: Cluster, w: Won)
    requires Paired(c) && LogsStay(c, d) && w in c.elected && WonOk(c, w)
    ensures WonOk(d, w)
  {
    forall v | v in d.nodes && v != w.node && InTerm(d, w.node, v, w.term)
      ensures d.nodes[v].log <= d.nodes[w.node].log
    {
      assert OtherVoted(c, w, v);
      assert InTerm(c, w.node, v, w.term);
    }
  }

  lemma StayKeepsAppend(c: Cluster, d: Cluster, m: AppendMsg)
    requires Paired(c) && LogsStay(c, d) && AppendOk(c, m)
    ensures AppendOk(d, m)
  {
    forall v | v in d.nodes && v != m.leader && InTerm(d, m.leader, v, m.term)
      ensures m.basis <= d.nodes[m.leader].log
    {
      assert OtherVoted(c, Won(m.leader, m.term), v);
      assert InTerm(c, m.leader, v, m.term);
    }
  }

  /** A step that changes no log keeps the invariant if what it newly records is in order. */
  lemma StayKeeps(c: Cluster, d: Cluster)
    requires TwoOk(c) && Paired(c) && LogsStay(c, d)
    requires forall r :: r in d.requests && r !in c.requests ==> RequestOk(d, r)
    requires forall g :: g in d.grants && g !in c.grants ==> GrantOk(d, g)
    requires forall w :: w in d.elected && w !in c.elected ==> WonOk(d, w)
    requires forall m :: m in d.appends && m !in c.appends ==> AppendOk(d, m)
    ensures TwoOk(d)
  {
    StayKeepsLogs(c, d);
    forall r | r in c.requests ensures RequestOk(d, r) {
      StayKeepsRequest(c, d, r);
    }
    forall g | g in c.grants ensures GrantOk(d, g) {
      StayKeepsGrant(c, d, g);
    }
    forall w | w in c.elected ensures WonOk(d, w) {
      StayKeepsWon(c, d, w);
    }
    forall m | m in c.appends ensures AppendOk(d, m) {
      StayKeepsAppend(c, d, m);
    }
  }

  /** A start changes no log and records a request of the node's own, or a win where no one else is. */
  lemma StartRecords(cfg: Config, c: Cluster, n: NodeId)
    requires n in c.nodes && c.nodes.Keys == cfg.members
    ensures var d := Start(cfg, c, n);
            && LogsStay(c, d) && d.grants == c.grants && d.appends == c.appends
            && (forall r :: r in d.requests && r !in c.requests ==> RequestOk(d, r))
            && (forall w :: w in d.elected && w !in c.elected ==> WonOk(d, w))
  {
    var s, d := StartElection(c.nodes[n], n), Start(cfg, c, n);
    assert d.nodes == c.nodes[n := d.nodes[n]] && d.nodes[n].log == c.nodes[n].log;
    if cfg.members - {n} == {} {
      assert d.nodes.Keys - {n} == {};
      forall v | v in d.nodes ensures v == n {
        assert v !in d.nodes.Keys - {n};
      }
      assert WonOk(d, Won(n, s.term));
    } else {
      assert RequestOk(d, RequestOf(s, n));
    }
  }

  lemma StartKeepsTwo(cfg: Config, c: Cluster, n: NodeId)
    requires TwoOk(c) && Paired(c) && n in c.nodes && c.nodes.Keys == cfg.members
    ensures TwoOk(Start(cfg, c, n))
  {
    var d := Start(cfg, c, n);
    StartRecords(cfg, c, n);
    StayKeeps(c, d);
  }

  lemma GivenVoteOk(c: Cluster, n: NodeId, r: VoteRequest)
    requires n in c.nodes && n != r.candidate && RequestOk(c, r) && GrantsVote(c.nodes[n], r)
    ensures GrantOk(Vote(c, n, r), Grant(n, r.candidate, r.term))
  {
  }

  lemma VoteStays(c: Cluster, n: NodeId, r: VoteRequest)
    requires n in c.nodes
    ensures LogsStay(c, Vote(c, n, r))
  {
    var d := Vote(c, n, r);
    assert d.nodes == c.nodes[n := d.nodes[n]] && d.nodes[n].log == c.nodes[n].log;
  }

  lemma VoteKeepsTwo(c: Cluster, n: NodeId, r: VoteRequest)
    requires TwoOk(c) && Paired(c) && n in c.nodes && n != r.candidate && r in c.requests
    ensures TwoOk(Vote(c, n, r))
  {
    var d := Vote(c, n, r);
    assert RequestOk(c, r);
    if GrantsVote(c.nodes[n], r) {
      GivenVoteOk(c, n, r);
    }
    VoteStays(c, n, r);
    StayKeeps(c, d);
  }

  lemma WinnerAhead(c: Cluster, d: Cluster, n: NodeId)
    requires TwoOk(c) && Paired(d) && LogsStay(c, d) && d.grants == c.grants
    requires n in c.nodes && Won(n, c.nodes[n].term) in d.elected && d.nodes[n].term == c.nodes[n].term
    ensures WonOk(d, Won(n, c.nodes[n].term))
  {
    var w := Won(n, c.nodes[n].term);
    forall v | v in d.nodes && v != n ensures d.nodes[v].log <= d.nodes[n].log {
      assert OtherVoted(d, w, v);
      assert GrantOk(c, Grant(v, n, w.term));
      assert Comparable(c, n, v) && LogOk(c, v);
      BehindIsPrefix(c.nodes[v].log, c.nodes[n].log, c.nodes[v].term);
    }
  }

  lemma FinishStays(cfg: Config, c: Cluster, n: NodeId, answers: seq<(NodeId, Response)>)
    requires n in c.nodes && n in cfg.views
    ensures LogsStay(c, Finish(cfg, c, n, answers))
    ensures Wins(c.nodes[n], Responses(answers), Majority(cfg, n)) ==>
              Finish(cfg, c, n, answers).nodes[n].term == c.nodes[n].term
  {
    var d := Finish(cfg, c, n, answers);
    FinishedNode(c.nodes[n], n, answers, Majority(cfg, n));
    assert d.nodes == c.nodes[n := d.nodes[n]];
  }

  lemma FinishKeepsTwo(cfg: Config, c: Cluster, n: NodeId, answers: seq<(NodeId, Response)>)
    requires TwoOk(c) && Paired(c) && n in c.nodes && n in cfg.views && Paired(Finish(cfg, c, n, answers))
    ensures TwoOk(Finish(cfg, c, n, answers))
  {
    var d := Finish(cfg, c, n, answers);
    var wins := Wins(c.nodes[n], Responses(answers), Majority(cfg, n));
    FinishStays(cfg, c, n, answers);
    if wins {
      WinnerAhead(c, d, n);
    }
    StayKeeps(c, d);
  }

  lemma SendKeepsTwo(cfg: Config, c: Cluster, n: NodeId, from: nat, upTo: nat, commit: int)
    requires TwoOk(c) && Paired(c) && Enabled(cfg, c, SendStep(n, from, upTo, commit))
    ensures TwoOk(Apply(cfg, c, SendStep(n, from, upTo, commit)))
  {
    var s, d := c.nodes[n], Apply(cfg, c, SendStep(n, from, upTo, commit));
    var m := AppendMsg(n, s.term, s.log[..upTo], from, commit);
    assert LogOk(c, n);
    assert d == c.(appends := c.appends + {m});
    assert LogsStay(c, d);
    SentIsOk(d, m);
    StayKeeps(c, d);
  }

  lemma {:induction false} SentIsOk(d: Cluster, m: AppendMsg)
    requires m.leader in d.nodes && Won(m.leader, m.term) in d.elected && m.Slice()
    requires m.basis <= d.nodes[m.leader].log && Rising(d.nodes[m.leader].log, m.term)
    ensures AppendOk(d, m)
  {
  }

  // ---------------------------------------------------------------- steps that lengthen a log

  /** The log of x grows within its term and nothing else changes. */
  ghost predicate Grows(c: Cluster, d: Cluster, x: NodeId) {
    && x in c.nodes && d.nodes.Keys == c.nodes.Keys
    && d.nodes[x].term == c.nodes[x].term && c.nodes[x].log <= d.nodes[x].log
    && (forall n :: n in c.nodes && n != x ==> d.nodes[n] == c.nodes[n])
    && d.requests == c.requests && d.grants == c.grants && d.elected == c.elected && d.appends == c.appends
  }

  lemma GrowthKeepsRequest(c: Cluster, d: Cluster, x: NodeId, r: VoteRequest)
    requires Grows(c, d, x) && Rising(d.nodes[x].log, d.nodes[x].term) && RequestOk(c, r)
    ensures RequestOk(d, r)
  {
    if r.candidate == x && r.term == c.nodes[x].term {
      LongerIsAtLeast(c.nodes[x].log, d.nodes[x].log, d.nodes[x].term, r.lastLogIndex, r.lastLogTerm);
    }
  }

  /** The logs are in order when the longer one is, and is comparable to the other node's. */
  lemma {:induction false} GrowthKeepsLogs(c: Cluster, d: Cluster, x: NodeId, y: NodeId)
    requires LogsOk(c) && Grows(c, d, x) && LogOk(d, x) && c.nodes.Keys == {x, y}
    requires y in d.nodes && Comparable(d, x, y)
    ensures LogsOk(d)
  {
    forall n | n in d.nodes ensures LogOk(d, n) {
      assert LogOk(c, n);
      assert n != x ==> d.nodes[n] == c.nodes[n];
    }
    forall n, v | n in d.nodes && v in d.nodes ensures Comparable(d, n, v) {
      if n != v {
        assert (n == x && v == y) || (n == y && v == x);
      }
    }
  }

  /** The leader itself adds an entry. */
  ghost predicate LeaderGrows(c: Cluster, d: Cluster, n: NodeId) {
    Grows(c, d, n) && LogOk(d, n) && Won(n, c.nodes[n].term) in c.elected
  }

  lemma LeaderKeepsLogs(c: Cluster, d: Cluster, n: NodeId)
    requires LogsOk(c) && Paired(c) && LeaderGrows(c, d, n) && WonOk(c, Won(n, c.nodes[n].term))
    ensures LogsOk(d)
  {
    if c.nodes.Keys == {n} {
      GrowthKeepsLogs(c, d, n, n);
    } else {
      var y :| y in c.nodes && y != n;
      OnlyTwo(c.nodes.Keys, n, y);
      assert InTerm(c, n, y, c.nodes[n].term);
      GrowthKeepsLogs(c, d, n, y);
    }
  }

  lemma LeaderKeepsGrant(c: Cluster, d: Cluster, n: NodeId, g: Grant)
    requires Paired(c) && LeaderGrows(c, d, n) && g in c.grants && GrantOk(c, g)
    ensures GrantOk(d, g)
  {
    assert GrantPast(c, g);
    if g.candidate == n && g.term == c.nodes[n].term {
      BehindLonger(c.nodes[g.voter].log, c.nodes[n].log, d.nodes[n].log, d.nodes[n].term);
    }
    if g.voter == n {
      assert OtherVoted(c, Won(n, c.nodes[n].term), g.candidate);
    }
  }

  lemma LeaderKeepsWon(c: Cluster, d: Cluster, n: NodeId, w: Won)
    requires Paired(c) && LeaderGrows(c, d, n) && w in c.elected && WonOk(c, w)
    ensures WonOk(d, w)
  {
    if w.node != n {
      OtherWonEarlier(c, n, w.node, c.nodes[n].term, w);
    }
    forall v | v in d.nodes && v != w.node && InTerm(d, w.node, v, w.term)
      ensures d.nodes[v].log <= d.nodes[w.node].log
    {
      assert InTerm(c, w.node, v, w.term);
    }
  }

  lemma GrowthKeepsAppend(c: Cluster, d: Cluster, x: NodeId, m: AppendMsg)
    requires Grows(c, d, x) && AppendOk(c, m)
    ensures AppendOk(d, m)
  {
    forall v | v in d.nodes && v != m.leader && InTerm(d, m.leader, v, m.term)
      ensures m.basis <= d.nodes[m.leader].log
    {
      assert InTerm(c, m.leader, v, m.term);
    }
  }

  lemma LeaderKeeps(c: Cluster, d: Cluster, n: NodeId)
    requires TwoOk(c) && Paired(c) && LeaderGrows(c, d, n)
    ensures TwoOk(d)
  {
    LeaderKeepsLogs(c, d, n);
    forall r | r in d.requests ensures RequestOk(d, r) {
      GrowthKeepsRequest(c, d, n, r);
    }
    forall g | g in d.grants ensures GrantOk(d, g) {
      LeaderKeepsGrant(c, d, n, g);
    }
    forall w | w in d.elected ensures WonOk(d, w) {
      LeaderKeepsWon(c, d, n, w);
    }
    forall m | m in d.appends ensures AppendOk(d, m) {
      GrowthKeepsAppend(c, d, n, m);
    }
  }

  lemma CreateGrows(c: Cluster, n: NodeId, command: Command)
    requires n in c.nodes && LogOk(c, n) && Won(n, c.nodes[n].term) in c.elected
    ensures LeaderGrows(c, Create(c, n, command), n)
  {
    var d := Create(c, n, command);
    assert d.nodes == c.nodes[n := d.nodes[n]];
    assert d.nodes[n].log == c.nodes[n].log + [LogEntry(c.nodes[n].term, |c.nodes[n].log|, command)];
  }

  lemma CreateKeepsTwo(c: Cluster, n: NodeId, command: Command)
    requires TwoOk(c) && Paired(c) && n in c.nodes && c.nodes[n].role == Leader
    ensures TwoOk(Create(c, n, command))
  {
    CreateGrows(c, n, command);
    LeaderKeeps(c, Create(c, n, command), n);
  }

  /** x grows towards the log of l, which won the term that x is in. */
  ghost predicate FollowerGrows(c: Cluster, d: Cluster, x: NodeId, l: NodeId) {
    && Grows(c, d, x) && LogOk(d, x)
    && l in c.nodes && l != x && Won(l, c.nodes[x].term) in c.elected
    && d.nodes[x].log <= d.nodes[l].log
  }

  lemma FollowerKeepsGrant(c: Cluster, d: Cluster, x: NodeId, l: NodeId, g: Grant)
    requires Paired(c) && FollowerGrows(c, d, x, l) && LogOk(c, l) && g in c.grants && GrantOk(c, g)
    ensures GrantOk(d, g)
  {
    assert GrantPast(c, g) && OtherVoted(c, Won(l, c.nodes[x].term), x);
    OnlyTwo(c.nodes.Keys, x, l);
    if g.voter == x {
      PrefixIsBehind(d.nodes[x].log, d.nodes[l].log, d.nodes[l].term);
    }
  }

  lemma FollowerKeepsWon(c: Cluster, d: Cluster, x: NodeId, l: NodeId, w: Won)
    requires Paired(c) && FollowerGrows(c, d, x, l) && w in c.elected && WonOk(c, w)
    ensures WonOk(d, w)
  {
    OnlyTwo(c.nodes.Keys, x, l);
    if w.node == x {
      OtherWonEarlier(c, l, x, c.nodes[x].term, w);
      assert !InTerm(d, x, l, w.term);
    }
  }

  lemma FollowerKeeps(c: Cluster, d: Cluster, x: NodeId, l: NodeId)
    requires TwoOk(c) && Paired(c) && FollowerGrows(c, d, x, l)
    ensures TwoOk(d)
  {
    OnlyTwo(c.nodes.Keys, x, l);
    GrowthKeepsLogs(c, d, x, l);
    forall r | r in d.requests ensures RequestOk(d, r) {
      GrowthKeepsRequest(c, d, x, r);
    }
    forall g | g in d.grants ensures GrantOk(d, g) {
      FollowerKeepsGrant(c, d, x, l, g);
    }
    forall w | w in d.elected ensures WonOk(d, w) {
      FollowerKeepsWon(c, d, x, l, w);
    }
    forall m | m in d.appends ensures AppendOk(d, m) {
      GrowthKeepsAppend(c, d, x, m);
    }
  }

  /** A merge of a slice of the winner's log into a prefix of it. */
  lemma {:induction false} MergedLog(s: NodeState, m: AppendMsg, full: seq<LogEntry>)
    requires m.Slice() && AcceptsAppend(s, m.term, m.PrevIndex(), m.PrevTerm()) && s.term == m.term
    requires Indexed(full) && s.log <= full && m.basis <= full
    requires Rising(s.log, m.term) && Rising(m.basis, m.term)
    ensures var r := AppendEntries(s, m.leader, m.term, m.PrevIndex(), m.PrevTerm(), m.Entries(), m.commit);
            && r.term == m.term && s.log <= r.log <= full && Indexed(r.log) && Rising(r.log, m.term)
  {
    DeliveredLog(s, m);
    SingleLeader.MergePrefixes(s.log, m.basis, full, m.from);
  }

  /** An accepted message comes from the winner of the receiver's own term and gives the longer of two
      prefixes of the winner's log. */
  lemma AcceptedGrows(c: Cluster, n: NodeId, m: AppendMsg)
    requires n in c.nodes && n != m.leader && AppendOk(c, m)
    requires LogOk(c, n) && LogOk(c, m.leader) && WonOk(c, Won(m.leader, m.term))
    requires OtherVoted(c, Won(m.leader, m.term), n)
    requires AcceptsAppend(c.nodes[n], m.term, m.PrevIndex(), m.PrevTerm())
    ensures FollowerGrows(c, Deliver(c, n, m), n, m.leader)
  {
    var d := Deliver(c, n, m);
    assert InTerm(c, m.leader, n, m.term);
    MergedLog(c.nodes[n], m, c.nodes[m.leader].log);
    assert d.nodes == c.nodes[n := d.nodes[n]];
  }

  lemma DeliverKeepsTwo(c: Cluster, n: NodeId, m: AppendMsg)
    requires TwoOk(c) && Paired(c) && n in c.nodes && m in c.appends && n != m.leader && m.Slice()
    ensures TwoOk(Deliver(c, n, m))
  {
    if AcceptsAppend(c.nodes[n], m.term, m.PrevIndex(), m.PrevTerm()) {
      var w := Won(m.leader, m.term);
      assert AppendOk(c, m) && OtherVoted(c, w, n) && WonOk(c, w) && LogOk(c, n) && LogOk(c, m.leader);
      AcceptedGrows(c, n, m);
      FollowerKeeps(c, Deliver(c, n, m), n, m.leader);
    } else {
      RejectedStays(c, n, m);
      StayKeeps(c, Deliver(c, n, m));
    }
  }

  lemma RejectedStays(c: Cluster, n: NodeId, m: AppendMsg)
    requires n in c.nodes && m.Slice() && !AcceptsAppend(c.nodes[n], m.term, m.PrevIndex(), m.PrevTerm())
    ensures LogsStay(c, Deliver(c, n, m))
  {
    var d := Deliver(c, n, m);
    DeliveredLog(c.nodes[n], m);
    assert d.nodes == c.nodes[n := d.nodes[n]];
  }

  // ---------------------------------------------------------------- runs

  lemma HeartbeatStays(c: Cluster, n: NodeId, leader: NodeId, term: int)
    requires n in c.nodes
    ensures LogsStay(c, c.(nodes := c.nodes[n := ReceiveHeartbeat(c.nodes[n], leader, term)]))
  {
  }

  lemma HeartbeatKeepsTwo(c: Cluster, n: NodeId, leader: NodeId, term: int)
    requires TwoOk(c) && Paired(c) && n in c.nodes
    ensures TwoOk(c.(nodes := c.nodes[n := ReceiveHeartbeat(c.nodes[n], leader, term)]))
  {
    HeartbeatStays(c, n, leader, term);
    StayKeeps(c, c.(nodes := c.nodes[n := ReceiveHeartbeat(c.nodes[n], leader, term)]));
  }

  lemma StepKeepsTwo(cfg: Config, c: Cluster, step: Step)
    requires TwoOk(c) && Paired(c) && c.nodes.Keys == cfg.members
    requires Enabled(cfg, c, step) && Paired(Apply(cfg, c, step))
    ensures TwoOk(Apply(cfg, c, step))
  {
    match step
    case StartStep(n) => StartKeepsTwo(cfg, c, n);
    case VoteStep(n, r) => VoteKeepsTwo(c, n, r);
    case FinishStep(n, answers) => FinishKeepsTwo(cfg, c, n, answers);
    case HeartbeatStep(n, leader, term) => HeartbeatKeepsTwo(c, n, leader, term);
    case CreateStep(n, command) => CreateKeepsTwo(c, n, command);
    case SendStep(n, from, upTo, commit) => SendKeepsTwo(cfg, c, n, from, upTo, commit);
    case DeliverStep(n, m) => DeliverKeepsTwo(c, n, m);
  }

  lemma {:induction false} RunKeepsTwo(cfg: Config, steps: seq<Step>)
    requires ValidConfig(cfg) && |cfg.members| <= 2 && IsRun(cfg, Init(cfg), steps)
    ensures TwoOk(After(cfg, Init(cfg), steps))
  {
    if steps != [] {
      var front := steps[..|steps| - 1];
      RunKeepsTwo(cfg, front);
      RunKeepsBase(cfg, front);
      RunKeepsBase(cfg, steps);
      BaseIsPaired(cfg, After(cfg, Init(cfg), front));
      BaseIsPaired(cfg, After(cfg, Init(cfg), steps));
      StepKeepsTwo(cfg, After(cfg, Init(cfg), front), steps[|steps| - 1]);
    }
  }

  lemma {:induction false} ComparableMatch(c: Cluster)
    requires LogsOk(c)
    ensures LogsMatch(c)
  {
    forall a, b, k: nat | a in c.nodes && b in c.nodes && k < |c.nodes[a].log| && k < |c.nodes[b].log|
                          && c.nodes[a].log[k].term == c.nodes[b].log[k].term
      ensures c.nodes[a].log[..k + 1] == c.nodes[b].log[..k + 1]
    {
      assert Comparable(c, a, b);
    }
    forall a | a in c.nodes ensures Indexed(c.nodes[a].log) {
      assert LogOk(c, a);
    }
  }

  /** In clusters of at most two nodes logs match after every run. */
  lemma SmallClustersMatch(cfg: Config, steps: seq<Step>)
    requires ValidConfig(cfg) && |cfg.members| <= 2 && IsRun(cfg, Init(cfg), steps)
    ensures LogsMatch(After(cfg, Init(cfg), steps))
  {
    RunKeepsTwo(cfg, steps);
    ComparableMatch(After(cfg, Init(cfg), steps));
  }

  /** Exactly when Log Matching holds in all runs that keep votes: up to two nodes. */
  lemma LogsMatchExactlyUpToTwoNodes(cfg: Config)
    requires DistinctViews(cfg)
    ensures (forall steps :: IsRun(cfg, Init(cfg), steps) && VotesKept(cfg, steps) ==>
               LogsMatch(After(cfg, Init(cfg), steps)))
            <==> |cfg.members| <= 2
  {
    if |cfg.members| <= 2 {
      forall steps | IsRun(cfg, Init(cfg), steps) && VotesKept(cfg, steps)
        ensures LogsMatch(After(cfg, Init(cfg), steps))
      {
        SmallClustersMatch(cfg, steps);
      }
    } else {
      var steps := LogsDiverge(cfg);
    }
  }
}
