/** Log Matching: two logs that hold an entry with the same index and term are equal up to it. */
module LogMatching {
  import opened Prelude
  import opened RaftNodes
  import opened RaftClusters
  import opened ElectionSafety

  // ---------------------------------------------------------------- merging a slice into a log

  /** Every entry carries its position. */
  ghost predicate Indexed(log: seq<LogEntry>) {
    forall k :: 0 <= k < |log| ==> log[k].index == k
  }

  /** The incoming slice overrides position k. */
  predicate Overrides(log: seq<LogEntry>, basis: seq<LogEntry>, from: nat, k: int)
    requires 0 <= k
  {
    from <= k < |basis| && k < |log| && log[k].term != basis[k].term
  }

  lemma {:induction false} MergeFirstAt(log: seq<LogEntry>, basis: seq<LogEntry>, from: nat, n: nat)
    requires from <= |log| && from + n <= |basis| && Indexed(basis)
    ensures var r := MergeFirst(log, basis[from..], n);
            && |r| == Max(|log|, from + n)
            && forall k :: 0 <= k < |r| ==>
                 r[k] == (if k < from + n && (Overrides(log, basis, from, k) || k >= |log|) then basis[k] else log[k])
  {
    if n > 0 {
      MergeFirstAt(log, basis, from, n - 1);
      assert basis[from..][n - 1] == basis[from + n - 1];
    }
  }

  // ---------------------------------------------------------------- canonical logs

  type Origins = map<(int, nat), Creation>

  /** The entry at k sits on the log its creator had when it created that entry. */
  ghost predicate CanonicalAt(created: Origins, log: seq<LogEntry>, k: nat)
    requires k < |log|
  {
    && log[k].index == k
    && (log[k].term, k) in created
    && created[(log[k].term, k)].prefix == log[..k + 1]
  }

  ghost predicate Canonical(created: Origins, log: seq<LogEntry>) {
    forall k: nat :: k < |log| ==> CanonicalAt(created, log, k)
  }

  lemma {:induction false} SameTermSamePrefix(created: Origins, a: seq<LogEntry>, b: seq<LogEntry>, k: nat)
    requires Canonical(created, a) && Canonical(created, b)
    requires k < |a| && k < |b| && a[k].term == b[k].term
    ensures a[..k + 1] == b[..k + 1]
  {
    assert CanonicalAt(created, a, k) && CanonicalAt(created, b, k);
  }

  lemma {:induction false} CanonicalGrows(created: Origins, more: Origins, log: seq<LogEntry>)
    requires Canonical(created, log)
    requires forall p :: p in created ==> p in more && more[p] == created[p]
    ensures Canonical(more, log)
  {
    forall k: nat | k < |log| ensures CanonicalAt(more, log, k) {
      assert CanonicalAt(created, log, k);
    }
  }

  lemma {:induction false} CanonicalAppend(created: Origins, log: seq<LogEntry>, e: LogEntry)
    requires Canonical(created, log) && e.index == |log|
    requires (e.term, |log|) in created && created[(e.term, |log|)].prefix == log + [e]
    ensures Canonical(created, log + [e])
  {
    var t := log + [e];
    forall k: nat | k < |t| ensures CanonicalAt(created, t, k) {
      assert k < |log| ==> CanonicalAt(created, log, k) && t[..k + 1] == log[..k + 1];
      assert t[..|t|] == t;
    }
  }

  lemma {:induction false} CanonicalPrefix(created: Origins, log: seq<LogEntry>, n: nat)
    requires Canonical(created, log) && n <= |log|
    ensures Canonical(created, log[..n])
  {
    forall k: nat | k < n ensures CanonicalAt(created, log[..n], k) {
      assert CanonicalAt(created, log, k);
      assert log[..n][..k + 1] == log[..k + 1];
    }
  }

  /** Some entry of the receiver is of another term than the incoming entry for its position. */
  ghost predicate Conflict(log: seq<LogEntry>, basis: seq<LogEntry>, from: nat) {
    exists k :: from <= k < |log| && k < |basis| && log[k].term != basis[k].term
  }

  /** The guard: a conflicting slice reaches the end of the receiver's log, so that no old entry stays
      behind the replaced ones. */
  ghost predicate NoStaleSuffix(log: seq<LogEntry>, basis: seq<LogEntry>, from: nat) {
    Conflict(log, basis, from) ==> |basis| >= |log|
  }

  /** What section 5.3 of the Raft paper asks for: drop the first conflicting entry and all after it. */
  ghost function Truncating(log: seq<LogEntry>, basis: seq<LogEntry>, from: nat): seq<LogEntry> {
    if Conflict(log, basis, from) || |basis| > |log| then basis else log
  }

  /** A message that passes the consistency check, between canonical logs. */
  ghost predicate Consistent(created: Origins, log: seq<LogEntry>, basis: seq<LogEntry>, from: nat) {
    && Canonical(created, log) && Canonical(created, basis)
    && from <= |log| && from <= |basis|
    && (from > 0 ==> log[from - 1].term == basis[from - 1].term)
  }

  lemma {:induction false} CanonicalIndexed(created: Origins, log: seq<LogEntry>)
    requires Canonical(created, log)
    ensures Indexed(log)
  {
    forall k: nat | k < |log| ensures log[k].index == k {
      assert CanonicalAt(created, log, k);
    }
  }

  /** Where the slice does not override the receiver, the two logs agree. */
  lemma {:induction false} KeptAgrees(created: Origins, log: seq<LogEntry>, basis: seq<LogEntry>, from: nat, k: nat)
    requires Consistent(created, log, basis, from)
    requires k < |log| && k < |basis| && !Overrides(log, basis, from, k)
    ensures log[k] == basis[k]
  {
    var j := if k < from then from - 1 else k;
    SameTermSamePrefix(created, log, basis, j);
    assert log[k] == log[..j + 1][k] && basis[k] == basis[..j + 1][k];
  }

  /** What the merge amounts to: the sender's log, then whatever the receiver had beyond it. */
  lemma {:induction false} MergeIsBasisThenRest(created: Origins, log: seq<LogEntry>, basis: seq<LogEntry>,
                                                from: nat)
    requires Consistent(created, log, basis, from)
    ensures Merge(log, basis[from..]) == BasisThenRest(log, basis)
  {
    CanonicalIndexed(created, basis);
    MergeFirstAt(log, basis, from, |basis| - from);
    forall k: nat | k < |log| && k < |basis| && !Overrides(log, basis, from, k) ensures log[k] == basis[k] {
      KeptAgrees(created, log, basis, from, k);
    }
    Pointwise(Merge(log, basis[from..]), log, basis, from);
  }

  lemma {:induction false} Pointwise(r: seq<LogEntry>, log: seq<LogEntry>, basis: seq<LogEntry>, from: nat)
    requires |r| == Max(|log|, |basis|)
    requires forall k :: 0 <= k < |r| ==>
               r[k] == (if Overrides(log, basis, from, k) || k >= |log| then basis[k] else log[k])
    requires forall k: nat :: k < |log| && k < |basis| && !Overrides(log, basis, from, k) ==> log[k] == basis[k]
    ensures r == BasisThenRest(log, basis)
  {
  }

  function BasisThenRest(log: seq<LogEntry>, basis: seq<LogEntry>): seq<LogEntry> {
    if |basis| < |log| then basis + log[|basis|..] else basis
  }

  lemma {:induction false} NoConflictAgrees(created: Origins, log: seq<LogEntry>, basis: seq<LogEntry>, from: nat)
    requires Consistent(created, log, basis, from) && !Conflict(log, basis, from)
    ensures if |basis| <= |log| then log[..|basis|] == basis else log == basis[..|log|]
  {
    forall k: nat | k < |log| && k < |basis| ensures log[k] == basis[k] {
      KeptAgrees(created, log, basis, from, k);
    }
  }

  /** The code agrees with truncation exactly under the guard. */
  lemma {:induction false} MergeTruncatesIff(created: Origins, log: seq<LogEntry>, basis: seq<LogEntry>, from: nat)
    requires Consistent(created, log, basis, from)
    ensures Merge(log, basis[from..]) == Truncating(log, basis, from) <==> NoStaleSuffix(log, basis, from)
  {
    MergeIsBasisThenRest(created, log, basis, from);
    if !Conflict(log, basis, from) {
      NoConflictAgrees(created, log, basis, from);
      if |basis| <= |log| {
        assert log == log[..|basis|] + log[|basis|..];
      }
    }
  }

  lemma {:induction false} StaleSuffixBreaks(created: Origins, log: seq<LogEntry>, basis: seq<LogEntry>, from: nat)
    requires Consistent(created, log, basis, from) && !NoStaleSuffix(log, basis, from)
    ensures !Canonical(created, BasisThenRest(log, basis))
  {
    var k :| from <= k < |log| && k < |basis| && log[k].term != basis[k].term;
    var r, last := BasisThenRest(log, basis), |log| - 1;
    assert r[k] == basis[k] && r[last] == log[last];
    assert r[..last + 1][k] != log[..last + 1][k];
    assert CanonicalAt(created, log, last) && !CanonicalAt(created, r, last);
  }

  /** A merge keeps the receiver's log canonical exactly under the guard; truncation always would. */
  lemma {:induction false} MergeCanonicalIff(created: Origins, log: seq<LogEntry>, basis: seq<LogEntry>, from: nat)
    requires Consistent(created, log, basis, from)
    ensures Canonical(created, Merge(log, basis[from..])) <==> NoStaleSuffix(log, basis, from)
    ensures Canonical(created, Truncating(log, basis, from))
  {
    MergeTruncatesIff(created, log, basis, from);
    MergeIsBasisThenRest(created, log, basis, from);
    if !NoStaleSuffix(log, basis, from) {
      StaleSuffixBreaks(created, log, basis, from);
    }
  }

  // ---------------------------------------------------------------- the cluster keeps logs canonical

  ghost predicate MessageOk(c: Cluster, m: AppendMsg) {
    m.Slice() && Canonical(c.created, m.basis) && Won(m.leader, m.term) in c.elected
  }

  /** An entry's creator won its term, and until it moves on its log still holds the entry. */
  ghost predicate OriginOk(c: Cluster, p: (int, nat))
    requires p in c.created
  {
    var creator := c.created[p].creator;
    && Won(creator, p.0) in c.elected
    && creator in c.nodes
    && (c.nodes[creator].term == p.0 ==>
          p.1 < |c.nodes[creator].log| && c.created[p].prefix == c.nodes[creator].log[..p.1 + 1])
  }

  ghost predicate LogInv(c: Cluster) {
    && (forall n :: n in c.nodes ==> Canonical(c.created, c.nodes[n].log))
    && (forall m :: m in c.appends ==> MessageOk(c, m))
    && (forall p :: p in c.created ==> OriginOk(c, p))
  }

  ghost predicate KeepsSuffix(c: Cluster, step: Step) {
    step.DeliverStep? && step.node in c.nodes && step.msg.Slice()
    && AcceptsAppend(c.nodes[step.node], step.msg.term, step.msg.PrevIndex(), step.msg.PrevTerm()) ==>
      NoStaleSuffix(c.nodes[step.node].log, step.msg.basis, step.msg.from)
  }

  /** No log changes, no message is sent, terms only grow. */
  ghost predicate LogsRest(c: Cluster, d: Cluster) {
    && d.nodes.Keys == c.nodes.Keys && c.elected <= d.elected
    && d.appends == c.appends && d.created == c.created
    && (forall n :: n in c.nodes ==> d.nodes[n].log == c.nodes[n].log && d.nodes[n].term >= c.nodes[n].term)
  }

  lemma ElectionStepsRestLogs(cfg: Config, c: Cluster, step: Step)
    requires Enabled(cfg, c, step) && (step.StartStep? || step.VoteStep? || step.FinishStep? || step.HeartbeatStep?)
    ensures LogsRest(c, Apply(cfg, c, step))
  {
  }

  lemma RestKeepsLogs(cfg: Config, c: Cluster, d: Cluster)
    requires VoteInv(cfg, c) && LogInv(c) && LogsRest(c, d)
    ensures LogInv(d)
  {
    forall p | p in d.created ensures OriginOk(d, p) {
      assert OriginOk(c, p);
      assert WinnerKeepsVote(c, Won(c.created[p].creator, p.0));
    }
    forall m | m in d.appends ensures MessageOk(d, m) {
      assert MessageOk(c, m);
    }
  }

  /** A leader never reuses an index within its term, and no one else creates entries of that term. */
  lemma CreatedIsFresh(cfg: Config, c: Cluster, n: NodeId)
    requires VoteInv(cfg, c) && LogInv(c) && n in c.nodes && c.nodes[n].role == Leader
    ensures (c.nodes[n].term, |c.nodes[n].log|) !in c.created
  {
    assert NodeOk(c, n);
    VotesGiveOneLeader(cfg, c);
    forall p | p in c.created && p.0 == c.nodes[n].term ensures p.1 < |c.nodes[n].log| {
      assert OriginOk(c, p);
      assert c.created[p].creator == n;
    }
  }

  lemma CreateKeepsCanonical(c: Cluster, n: NodeId, command: Command)
    requires LogInv(c) && n in c.nodes && (c.nodes[n].term, |c.nodes[n].log|) !in c.created
    ensures var d := Create(c, n, command);
            && (forall m :: m in d.nodes ==> Canonical(d.created, d.nodes[m].log))
            && (forall m :: m in d.appends ==> MessageOk(d, m))
  {
    var d := Create(c, n, command);
    forall m | m in d.nodes ensures Canonical(d.created, d.nodes[m].log) {
      CreateKeepsNode(c, n, command, m);
    }
    forall m | m in d.appends ensures MessageOk(d, m) {
      assert MessageOk(c, m);
      CanonicalGrows(c.created, d.created, m.basis);
    }
  }

  lemma {:induction false} CreateKeepsNode(c: Cluster, n: NodeId, command: Command, m: NodeId)
    requires n in c.nodes && m in c.nodes && (c.nodes[n].term, |c.nodes[n].log|) !in c.created
    requires Canonical(c.created, c.nodes[m].log)
    ensures Canonical(Create(c, n, command).created, Create(c, n, command).nodes[m].log)
  {
    var d, s := Create(c, n, command), c.nodes[m].log;
    CanonicalGrows(c.created, d.created, s);
    if m == n {
      CanonicalAppend(d.created, s, d.nodes[n].log[|s|]);
    }
  }

  lemma {:induction false} CreateKeepsOrigin(c: Cluster, n: NodeId, command: Command, p: (int, nat))
    requires n in c.nodes && p in c.created && p != (c.nodes[n].term, |c.nodes[n].log|) && OriginOk(c, p)
    ensures OriginOk(Create(c, n, command), p)
  {
    var s, t := c.nodes[n].log, Create(c, n, command).nodes[n].log;
    assert p.1 < |s| ==> t[..p.1 + 1] == s[..p.1 + 1];
  }

  lemma CreateKeepsOrigins(cfg: Config, c: Cluster, n: NodeId, command: Command)
    requires VoteInv(cfg, c) && LogInv(c) && Enabled(cfg, c, CreateStep(n, command))
    ensures forall p :: p in Create(c, n, command).created ==> OriginOk(Create(c, n, command), p)
  {
    var d := Create(c, n, command);
    var t, key := d.nodes[n].log, (c.nodes[n].term, |c.nodes[n].log|);
    assert NodeOk(c, n);
    assert t[..|t|] == t;
    assert OriginOk(d, key);
    forall p | p in d.created && p != key ensures OriginOk(d, p) {
      assert OriginOk(c, p);
      CreateKeepsOrigin(c, n, command, p);
    }
  }

  lemma CreateKeepsLogs(cfg: Config, c: Cluster, n: NodeId, command: Command)
    requires VoteInv(cfg, c) && LogInv(c) && Enabled(cfg, c, CreateStep(n, command))
    ensures LogInv(Create(c, n, command))
  {
    CreatedIsFresh(cfg, c, n);
    CreateKeepsCanonical(c, n, command);
    CreateKeepsOrigins(cfg, c, n, command);
  }

  lemma SendKeepsLogs(cfg: Config, c: Cluster, step: Step)
    requires VoteInv(cfg, c) && LogInv(c) && Enabled(cfg, c, step) && step.SendStep?
    ensures LogInv(Apply(cfg, c, step))
  {
    var d := Apply(cfg, c, step);
    CanonicalPrefix(c.created, c.nodes[step.node].log, step.upTo);
    assert NodeOk(c, step.node);
    forall m | m in d.appends ensures MessageOk(d, m) {
      assert m in c.appends ==> MessageOk(c, m);
    }
    forall p | p in d.created ensures OriginOk(d, p) {
      assert OriginOk(c, p);
    }
  }

  /** What a delivery does to the receiver's log. */
  lemma DeliveredLog(s: NodeState, m: AppendMsg)
    requires m.Slice()
    ensures var r := AppendEntries(s, m.leader, m.term, m.PrevIndex(), m.PrevTerm(), m.Entries(), m.commit);
            && r.term >= s.term
            && (if AcceptsAppend(s, m.term, m.PrevIndex(), m.PrevTerm())
                then r.log == Merge(s.log, m.basis[m.from..]) && r.term == m.term
                else r.log == s.log)
  {
  }

  /** The receiver's own entries of its current term are never touched: it would have to be the sender. */
  lemma DeliverKeepsOrigins(cfg: Config, c: Cluster, n: NodeId, m: AppendMsg)
    requires VoteInv(cfg, c) && LogInv(c) && Enabled(cfg, c, DeliverStep(n, m))
    ensures forall p :: p in Deliver(c, n, m).created ==> OriginOk(Deliver(c, n, m), p)
  {
    var d := Deliver(c, n, m);
    DeliveredLog(c.nodes[n], m);
    assert MessageOk(c, m);
    OriginsStay(cfg, c, d, n, m);
  }

  /** The log of n moves on account of message m, if it moves at all. */
  ghost predicate Receives(c: Cluster, d: Cluster, n: NodeId, m: AppendMsg) {
    && n in c.nodes && n in d.nodes && n != m.leader
    && d.nodes == c.nodes[n := d.nodes[n]] && d.nodes[n].term >= c.nodes[n].term
    && (d.nodes[n].log != c.nodes[n].log ==> d.nodes[n].term == m.term)
    && d.created == c.created && d.elected == c.elected && d.appends == c.appends
  }

  lemma OriginsStay(cfg: Config, c: Cluster, d: Cluster, n: NodeId, m: AppendMsg)
    requires VoteInv(cfg, c) && LogInv(c) && Receives(c, d, n, m) && Won(m.leader, m.term) in c.elected
    ensures forall p :: p in d.created ==> OriginOk(d, p)
  {
    VotesGiveOneLeader(cfg, c);
    forall p | p in d.created ensures OriginOk(d, p) {
      assert OriginOk(c, p);
      assert WinnerKeepsVote(c, Won(c.created[p].creator, p.0));
      OriginStays(c, d, n, m, p);
    }
  }

  lemma OriginStays(c: Cluster, d: Cluster, n: NodeId, m: AppendMsg, p: (int, nat))
    requires OneLeaderPerTerm(c) && Receives(c, d, n, m) && Won(m.leader, m.term) in c.elected
    requires p in c.created && OriginOk(c, p)
    requires c.created[p].creator in c.nodes && p.0 <= c.nodes[c.created[p].creator].term
    ensures OriginOk(d, p)
  {
    var w := Won(c.created[p].creator, p.0);
    assert w.node == n && w.term == m.term ==> w.node == m.leader;
  }

  /** A delivery keeps every log canonical if and only if it leaves no stale entry behind a conflict. */
  lemma DeliverKeepsLogsIff(cfg: Config, c: Cluster, n: NodeId, m: AppendMsg)
    requires VoteInv(cfg, c) && LogInv(c) && Enabled(cfg, c, DeliverStep(n, m))
    ensures LogInv(Deliver(c, n, m)) <==> KeepsSuffix(c, DeliverStep(n, m))
  {
    var d := Deliver(c, n, m);
    var s := c.nodes[n];
    DeliverKeepsOrigins(cfg, c, n, m);
    assert MessageOk(c, m);
    forall k | k in d.appends ensures MessageOk(d, k) {
      assert MessageOk(c, k);
    }
    DeliveredCanonicalIff(c.created, s, m);
    assert d.created == c.created;
    assert Canonical(c.created, d.nodes[n].log) <==> KeepsSuffix(c, DeliverStep(n, m));
  }

  lemma {:induction false} DeliveredCanonicalIff(created: Origins, s: NodeState, m: AppendMsg)
    requires m.Slice() && Canonical(created, s.log) && Canonical(created, m.basis)
    ensures var r := AppendEntries(s, m.leader, m.term, m.PrevIndex(), m.PrevTerm(), m.Entries(), m.commit);
            Canonical(created, r.log) <==> (AcceptsAppend(s, m.term, m.PrevIndex(), m.PrevTerm()) ==>
                                              NoStaleSuffix(s.log, m.basis, m.from))
  {
    DeliveredLog(s, m);
    if AcceptsAppend(s, m.term, m.PrevIndex(), m.PrevTerm()) {
      MergeCanonicalIff(created, s.log, m.basis, m.from);
    }
  }

  lemma StepKeepsLogs(cfg: Config, c: Cluster, step: Step)
    requires VoteInv(cfg, c) && LogInv(c) && Enabled(cfg, c, step) && KeepsSuffix(c, step)
    ensures LogInv(Apply(cfg, c, step))
  {
    match step
    case CreateStep(n, command) => CreateKeepsLogs(cfg, c, n, command);
    case SendStep(_, _, _, _) => SendKeepsLogs(cfg, c, step);
    case DeliverStep(n, m) => DeliverKeepsLogsIff(cfg, c, n, m);
    case _ =>
      ElectionStepsRestLogs(cfg, c, step);
      RestKeepsLogs(cfg, c, Apply(cfg, c, step));
  }

  // ---------------------------------------------------------------- Log Matching over runs

  ghost predicate SuffixesKept(cfg: Config, steps: seq<Step>)
    requires IsRun(cfg, Init(cfg), steps)
  {
    steps == [] ||
    (SuffixesKept(cfg, steps[..|steps| - 1])
     && KeepsSuffix(After(cfg, Init(cfg), steps[..|steps| - 1]), steps[|steps| - 1]))
  }

  lemma {:induction false} RunKeepsLogs(cfg: Config, steps: seq<Step>)
    requires ValidConfig(cfg) && IsRun(cfg, Init(cfg), steps) && VotesKept(cfg, steps) && SuffixesKept(cfg, steps)
    ensures LogInv(After(cfg, Init(cfg), steps))
  {
    if steps != [] {
      var front := steps[..|steps| - 1];
      RunKeepsLogs(cfg, front);
      RunKeepsVotes(cfg, front);
      StepKeepsLogs(cfg, After(cfg, Init(cfg), front), steps[|steps| - 1]);
    }
  }

  /** Logs that agree on the term at an index agree on everything up to it, and every entry's index
      is its position. */
  ghost predicate LogsMatch(c: Cluster) {
    && (forall a, b, k: nat :: a in c.nodes && b in c.nodes && k < |c.nodes[a].log| && k < |c.nodes[b].log|
                               && c.nodes[a].log[k].term == c.nodes[b].log[k].term ==>
          c.nodes[a].log[..k + 1] == c.nodes[b].log[..k + 1])
    && (forall a :: a in c.nodes ==> Indexed(c.nodes[a].log))
  }

  lemma {:induction false} CanonicalLogsMatch(c: Cluster)
    requires LogInv(c)
    ensures LogsMatch(c)
  {
    forall a, b, k: nat | a in c.nodes && b in c.nodes && k < |c.nodes[a].log| && k < |c.nodes[b].log|
                          && c.nodes[a].log[k].term == c.nodes[b].log[k].term
      ensures c.nodes[a].log[..k + 1] == c.nodes[b].log[..k + 1]
    {
      SameTermSamePrefix(c.created, c.nodes[a].log, c.nodes[b].log, k);
    }
    forall a, k: nat | a in c.nodes && k < |c.nodes[a].log| ensures c.nodes[a].log[k].index == k {
      assert CanonicalAt(c.created, c.nodes[a].log, k);
    }
  }

  /** Log Matching for any number of leaders, nodes and messages, delayed, repeated or reordered. */
  lemma {:induction false} LogMatchingHolds(cfg: Config, steps: seq<Step>)
    requires ValidConfig(cfg) && IsRun(cfg, Init(cfg), steps) && VotesKept(cfg, steps) && SuffixesKept(cfg, steps)
    ensures LogsMatch(After(cfg, Init(cfg), steps))
  {
    RunKeepsLogs(cfg, steps);
    CanonicalLogsMatch(After(cfg, Init(cfg), steps));
  }
}
