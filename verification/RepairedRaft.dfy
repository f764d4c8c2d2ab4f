/** The two repairs that make every run safe: an election that ends in a later term than it was started
    for leaves the node alone, and a conflicting entry cuts off the log behind it, as section 5.3 of the
    Raft paper asks. Everything else is the code's. */
module RepairedRaft {
  import opened Prelude
  import opened RaftNodes
  import opened RaftClusters
  import opened ElectionSafety
  import opened LogMatching

  // ---------------------------------------------------------------- cutting instead of overwriting

  function CutOne(log: seq<LogEntry>, e: LogEntry): seq<LogEntry> {
    if e.index >= |log| then log + [e]
    else if log[e.index].term != e.term then log[..e.index] + [e]
    else log
  }

  function CutFirst(log: seq<LogEntry>, entries: seq<LogEntry>, n: nat): seq<LogEntry>
    requires n <= |entries|
  {
    if n == 0 then log else CutOne(CutFirst(log, entries, n - 1), entries[n - 1])
  }

  lemma {:induction false} ConsistentPrefix(created: Origins, log: seq<LogEntry>, basis: seq<LogEntry>, from: nat,
                                            k: nat)
    requires Consistent(created, log, basis, from) && from <= k <= |basis|
    ensures Consistent(created, log, basis[..k], from)
  {
    CanonicalPrefix(created, basis, k);
  }

  lemma {:induction false} CutIsTruncating(created: Origins, log: seq<LogEntry>, basis: seq<LogEntry>, from: nat,
                                           n: nat)
    requires Consistent(created, log, basis, from) && from + n <= |basis|
    ensures CutFirst(log, basis[from..], n) == Truncating(log, basis[..from + n], from)
  {
    if n > 0 {
      CutIsTruncating(created, log, basis, from, n - 1);
      CutNext(created, log, basis, from, n);
    }
  }

  lemma {:induction false} CutNext(created: Origins, log: seq<LogEntry>, basis: seq<LogEntry>, from: nat, n: nat)
    requires Consistent(created, log, basis, from) && 0 < n && from + n <= |basis|
    ensures CutOne(Truncating(log, basis[..from + n - 1], from), basis[from..][n - 1])
         == Truncating(log, basis[..from + n], from)
  {
    ConsistentPrefix(created, log, basis, from, from + n - 1);
    CanonicalIndexed(created, basis);
    NextEntry(basis, from, n);
    CutMore(created, log, basis[..from + n - 1], from, basis[from + n - 1]);
  }

  lemma NextEntry(basis: seq<LogEntry>, from: nat, n: nat)
    requires 0 < n && from + n <= |basis|
    ensures basis[from..][n - 1] == basis[from + n - 1]
    ensures basis[..from + n] == basis[..from + n - 1] + [basis[from + n - 1]]
  {
  }

  lemma {:induction false} CutMore(created: Origins, log: seq<LogEntry>, b: seq<LogEntry>, from: nat, e: LogEntry)
    requires Consistent(created, log, b, from) && e.index == |b|
    ensures CutOne(Truncating(log, b, from), e) == Truncating(log, b + [e], from)
  {
    var c := b + [e];
    if Conflict(log, b, from) {
      var j :| from <= j < |log| && j < |b| && log[j].term != b[j].term;
      assert log[j].term != c[j].term;
    } else {
      NoConflictAgrees(created, log, b, from);
      if |b| < |log| {
        assert c[|b|] == e;
        assert Conflict(log, c, from) <==> log[|b|].term != e.term;
      }
    }
  }

  function TakeIn(s: NodeState, m: AppendMsg): NodeState
    requires m.Slice()
  {
    var a := AdoptTerm(s, m.term);
    if m.term < a.term then a
    else
      var b := a.(currentLeader := Some(m.leader));
      if !PrevMatches(b.log, m.PrevIndex(), m.PrevTerm()) then b
      else AdvanceCommit(b.(log := CutFirst(b.log, m.Entries(), |m.Entries()|)), m.commit)
  }

  // ---------------------------------------------------------------- repaired steps

  /** The election ends without a winner in another term than its own. */
  ghost predicate EndsLate(cfg: Config, c: Cluster, step: Step)
    requires Enabled(cfg, c, step)
  {
    && step.FinishStep?
    && StepsDownInPlace(c.nodes[step.node], Responses(step.answers), Majority(cfg, step.node))
    && c.nodes[step.node].term != c.pending[step.node]
  }

  ghost function ApplyRepaired(cfg: Config, c: Cluster, step: Step): Cluster
    requires Enabled(cfg, c, step)
  {
    if EndsLate(cfg, c, step) then c.(pending := c.pending - {step.node})
    else if step.DeliverStep? then c.(nodes := c.nodes[step.node := TakeIn(c.nodes[step.node], step.msg)])
    else Apply(cfg, c, step)
  }

  ghost predicate IsRepairedRun(cfg: Config, steps: seq<Step>)
    decreases |steps|, 0
  {
    steps == [] ||
    (IsRepairedRun(cfg, steps[..|steps| - 1])
     && Enabled(cfg, AfterRepaired(cfg, steps[..|steps| - 1]), steps[|steps| - 1]))
  }

  ghost function AfterRepaired(cfg: Config, steps: seq<Step>): Cluster
    requires IsRepairedRun(cfg, steps)
    decreases |steps|, 1
  {
    if steps == [] then Init(cfg)
    else ApplyRepaired(cfg, AfterRepaired(cfg, steps[..|steps| - 1]), steps[|steps| - 1])
  }

  // ---------------------------------------------------------------- each repaired step is safe

  lemma LateEndKeepsBase(cfg: Config, c: Cluster, step: Step)
    requires BaseInv(cfg, c) && Enabled(cfg, c, step) && EndsLate(cfg, c, step)
    ensures BaseInv(cfg, ApplyRepaired(cfg, c, step))
  {
    var d := ApplyRepaired(cfg, c, step);
    QuorumsStay(cfg, c, d);
    assert NodeOk(c, step.node);
    forall m | m in d.nodes ensures NodeOk(d, m) {
      LateEndKeepsNode(c, step.node, m);
    }
    forall g | g in d.grants ensures GrantPast(d, g) {
      assert GrantPast(c, g);
    }
    forall w | w in d.elected ensures WinnerKeepsVote(d, w) {
      assert WinnerKeepsVote(c, w);
    }
  }

  lemma LateEndKeepsNode(c: Cluster, n: NodeId, m: NodeId)
    requires n in c.nodes && n in c.pending && c.nodes[n].term != c.pending[n] && NodeOk(c, n)
    requires m in c.nodes && NodeOk(c, m)
    ensures NodeOk(c.(pending := c.pending - {n}), m)
  {
  }

  lemma LateEndKeeps(cfg: Config, c: Cluster, step: Step)
    requires VoteInv(cfg, c) && LogInv(c) && Enabled(cfg, c, step) && EndsLate(cfg, c, step)
    ensures VoteInv(cfg, ApplyRepaired(cfg, c, step)) && LogInv(ApplyRepaired(cfg, c, step))
  {
    var d := ApplyRepaired(cfg, c, step);
    LateEndKeepsBase(cfg, c, step);
    RestKeepsLogs(cfg, c, d);
    forall g | g in d.grants ensures VoteHeld(d, g) {
      assert VoteHeld(c, g);
    }
  }

  lemma TakenLog(s: NodeState, m: AppendMsg)
    requires m.Slice()
    ensures var r := TakeIn(s, m);
            && Quiet(s, r)
            && (if AcceptsAppend(s, m.term, m.PrevIndex(), m.PrevTerm())
                then r.log == CutFirst(s.log, m.Entries(), |m.Entries()|) && r.term == m.term
                else r.log == s.log)
  {
  }

  /** Cutting keeps logs canonical without any guard. */
  lemma {:induction false} CutKeepsCanonical(created: Origins, log: seq<LogEntry>, basis: seq<LogEntry>, from: nat)
    requires Consistent(created, log, basis, from)
    ensures Canonical(created, CutFirst(log, basis[from..], |basis| - from))
  {
    CutIsTruncating(created, log, basis, from, |basis| - from);
    assert basis[..|basis|] == basis;
  }

  lemma TakenIsCanonical(cfg: Config, c: Cluster, n: NodeId, m: AppendMsg)
    requires VoteInv(cfg, c) && LogInv(c) && Enabled(cfg, c, DeliverStep(n, m))
    ensures Canonical(c.created, TakeIn(c.nodes[n], m).log)
  {
    TakenLog(c.nodes[n], m);
    assert MessageOk(c, m);
    if AcceptsAppend(c.nodes[n], m.term, m.PrevIndex(), m.PrevTerm()) {
      CutKeepsCanonical(c.created, c.nodes[n].log, m.basis, m.from);
    }
  }

  lemma TakingKeepsOrigins(cfg: Config, c: Cluster, n: NodeId, m: AppendMsg)
    requires VoteInv(cfg, c) && LogInv(c) && Enabled(cfg, c, DeliverStep(n, m))
    ensures var d := ApplyRepaired(cfg, c, DeliverStep(n, m));
            forall p :: p in d.created ==> OriginOk(d, p)
  {
    var d := ApplyRepaired(cfg, c, DeliverStep(n, m));
    TakenLog(c.nodes[n], m);
    assert MessageOk(c, m);
    OriginsStay(cfg, c, d, n, m);
  }

  lemma TakingKeeps(cfg: Config, c: Cluster, n: NodeId, m: AppendMsg)
    requires VoteInv(cfg, c) && LogInv(c) && Enabled(cfg, c, DeliverStep(n, m))
    ensures var d := ApplyRepaired(cfg, c, DeliverStep(n, m));
            VoteInv(cfg, d) && LogInv(d)
  {
    var d := ApplyRepaired(cfg, c, DeliverStep(n, m));
    TakenLog(c.nodes[n], m);
    QuietKeepsVotes(cfg, c, d, n, TakeIn(c.nodes[n], m));
    TakenIsCanonical(cfg, c, n, m);
    TakingKeepsOrigins(cfg, c, n, m);
    forall k | k in d.appends ensures MessageOk(d, k) {
      assert MessageOk(c, k);
    }
  }

  lemma RepairedStepKeeps(cfg: Config, c: Cluster, step: Step)
    requires VoteInv(cfg, c) && LogInv(c) && Enabled(cfg, c, step)
    ensures VoteInv(cfg, ApplyRepaired(cfg, c, step)) && LogInv(ApplyRepaired(cfg, c, step))
  {
    if EndsLate(cfg, c, step) {
      LateEndKeeps(cfg, c, step);
    } else if step.DeliverStep? {
      TakingKeeps(cfg, c, step.node, step.msg);
    } else {
      assert NodeOk(c, step.node);
      StepKeepsVotes(cfg, c, step);
      StepKeepsLogs(cfg, c, step);
    }
  }

  lemma {:induction false} RepairedRunKeeps(cfg: Config, steps: seq<Step>)
    requires ValidConfig(cfg) && IsRepairedRun(cfg, steps)
    ensures VoteInv(cfg, AfterRepaired(cfg, steps)) && LogInv(AfterRepaired(cfg, steps))
  {
    if steps == [] {
      InitInv(cfg);
    } else {
      var front := steps[..|steps| - 1];
      RepairedRunKeeps(cfg, front);
      RepairedStepKeeps(cfg, AfterRepaired(cfg, front), steps[|steps| - 1]);
    }
  }

  /** With the repairs every run of every cluster has one leader per term and matching logs. */
  lemma {:induction false} RepairedRunsSafe(cfg: Config, steps: seq<Step>)
    requires ValidConfig(cfg) && IsRepairedRun(cfg, steps)
    ensures OneLeaderPerTerm(AfterRepaired(cfg, steps))
    ensures LogsMatch(AfterRepaired(cfg, steps))
  {
    RepairedRunKeeps(cfg, steps);
    VotesGiveOneLeader(cfg, AfterRepaired(cfg, steps));
    CanonicalLogsMatch(AfterRepaired(cfg, steps));
  }
}
