/** Replication by one leader: followers that start on prefixes of its log take in slices of it, in any
    order and any number of times, and never apply different commands. */
module SingleLeader {
  import opened Prelude
  import opened RaftNodes
  import opened RaftClusters
  import opened LogMatching

  datatype Group = Group(
    leader: NodeId,
    term: int,
    log: seq<LogEntry>,
    followers: map<NodeId, NodeState>,
    sent: set<AppendMsg>)

  datatype Event =
    | Append(command: Command)
    | Send(from: nat, upTo: nat, commit: int)
    | Receive(follower: NodeId, msg: AppendMsg)

  predicate Possible(g: Group, e: Event) {
    match e
    case Append(_) => true
    case Send(from, upTo, _) => from <= upTo <= |g.log|
    case Receive(f, m) => f in g.followers && m in g.sent && m.Slice()
  }

  function Receives(s: NodeState, m: AppendMsg): NodeState
    requires m.Slice()
  {
    AppendEntries(s, m.leader, m.term, m.PrevIndex(), m.PrevTerm(), m.Entries(), m.commit)
  }

  function Next(g: Group, e: Event): Group
    requires Possible(g, e)
  {
    match e
    case Append(command) => g.(log := g.log + [LogEntry(g.term, |g.log|, command)])
    case Send(from, upTo, commit) => g.(sent := g.sent + {AppendMsg(g.leader, g.term, g.log[..upTo], from, commit)})
    case Receive(f, m) => g.(followers := g.followers[f := Receives(g.followers[f], m)])
  }

  /** The state after a run of events; an event that is not possible changes nothing. */
  function Run(g: Group, events: seq<Event>): Group
    decreases |events|
  {
    if events == [] then g
    else
      var h, e := Run(g, events[..|events| - 1]), events[|events| - 1];
      if Possible(h, e) then Next(h, e) else h
  }

  /** The entries from position 1 to the last applied one. */
  function AppliedPart(s: NodeState): seq<LogEntry> {
    if 0 < s.lastApplied < |s.log| then s.log[1..s.lastApplied + 1] else []
  }

  /** A follower on a prefix of `log` that has applied just what its counters say. */
  ghost predicate Follows(s: NodeState, log: seq<LogEntry>) {
    InBounds(s) && s.log <= log && s.applied == AppliedPart(s)
  }

  ghost predicate GroupInv(g: Group) {
    && Indexed(g.log)
    && (forall f :: f in g.followers ==> Follows(g.followers[f], g.log))
    && (forall m :: m in g.sent ==> m.basis <= g.log && m.term == g.term)
  }

  /** Merging a slice of the leader's log into a prefix of it gives the longer of the two. */
  lemma {:induction false} MergePrefixes(log: seq<LogEntry>, basis: seq<LogEntry>, full: seq<LogEntry>, from: nat)
    requires Indexed(full) && log <= full && basis <= full && from <= |log| && from <= |basis|
    ensures Merge(log, basis[from..]) == if |basis| > |log| then basis else log
  {
    var n := |basis| - from;
    assert Indexed(basis);
    MergeFirstAt(log, basis, from, n);
    forall k | 0 <= k < |log| && k < |basis| ensures log[k] == basis[k] {
      assert log[k] == full[k] && basis[k] == full[k];
    }
  }

  lemma CommitKeepsApplied(s: NodeState, leaderCommit: int)
    requires InBounds(s) && s.applied == AppliedPart(s)
    ensures var r := AdvanceCommit(s, leaderCommit);
            InBounds(r) && r.log == s.log && r.applied == AppliedPart(r)
  {
    AdvanceCommitAppliesInOrder(s, leaderCommit);
    var r := AdvanceCommit(s, leaderCommit);
    if s.lastApplied > 0 {
      assert r.log[1..r.lastApplied + 1] == s.log[1..s.lastApplied + 1] + r.log[s.lastApplied + 1..r.lastApplied + 1];
    }
  }

  /** The log a follower ends up with: the longer one if the message is accepted. */
  lemma {:induction false} ReceivedLog(s: NodeState, m: AppendMsg, log: seq<LogEntry>)
    requires Indexed(log) && Follows(s, log) && m.Slice() && m.basis <= log
    ensures var r := Receives(s, m);
            r.log == if AcceptsAppend(s, m.term, m.PrevIndex(), m.PrevTerm()) && |m.basis| > |s.log| then m.basis
                     else s.log
  {
    DeliveredLog(s, m);
    if AcceptsAppend(s, m.term, m.PrevIndex(), m.PrevTerm()) {
      MergePrefixes(s.log, m.basis, log, m.from);
    }
  }

  lemma {:induction false} ReceiveFollows(s: NodeState, m: AppendMsg, log: seq<LogEntry>)
    requires Indexed(log) && Follows(s, log) && m.Slice() && m.basis <= log
    ensures Follows(Receives(s, m), log)
  {
    ReceivedLog(s, m, log);
    if AcceptsAppend(s, m.term, m.PrevIndex(), m.PrevTerm()) {
      var b := AdoptTerm(s, m.term).(currentLeader := Some(m.leader));
      var c := b.(log := Merge(b.log, m.Entries()));
      MergePrefixes(s.log, m.basis, log, m.from);
      assert AppliedPart(c) == AppliedPart(s) by {
        assert s.log <= c.log;
      }
      CommitKeepsApplied(c, m.commit);
    }
  }

  lemma NextKeeps(g: Group, e: Event)
    requires GroupInv(g) && Possible(g, e)
    ensures GroupInv(Next(g, e)) && g.log <= Next(g, e).log
  {
    match e
    case Append(_) =>
    case Send(_, upTo, _) => assert g.log[..upTo] <= g.log;
    case Receive(f, m) => ReceiveFollows(g.followers[f], m, g.log);
  }

  lemma {:induction false} RunKeeps(g: Group, events: seq<Event>)
    requires GroupInv(g)
    ensures GroupInv(Run(g, events)) && g.log <= Run(g, events).log
    decreases |events|
  {
    if events != [] {
      var front, e := events[..|events| - 1], events[|events| - 1];
      RunKeeps(g, front);
      if Possible(Run(g, front), e) {
        NextKeeps(Run(g, front), e);
      }
    }
  }

  /** After any run every follower's log is a prefix of the leader's, followers agree on whatever both
      have, committed or not, and of the commands two followers applied one list begins the other. */
  lemma ReplicationSafe(g: Group, events: seq<Event>, a: NodeId, b: NodeId)
    requires GroupInv(g) && a in Run(g, events).followers && b in Run(g, events).followers
    ensures var h := Run(g, events); var s, t := h.followers[a], h.followers[b];
            && s.log <= h.log && t.log <= h.log
            && (forall k :: 0 <= k <= s.commitIndex && k <= t.commitIndex && k < |s.log| && k < |t.log| ==>
                  s.log[k] == t.log[k])
            && |s.applied| == Max(0, s.commitIndex)
            && (s.applied <= t.applied || t.applied <= s.applied)
  {
    RunKeeps(g, events);
    var h := Run(g, events);
    var s, t := h.followers[a], h.followers[b];
    assert Follows(s, h.log) && Follows(t, h.log);
    forall k | 0 <= k < |s.applied| && k < |t.applied| ensures s.applied[k] == t.applied[k] {
      assert s.applied[k] == s.log[k + 1] == h.log[k + 1];
      assert t.applied[k] == t.log[k + 1] == h.log[k + 1];
    }
  }

  /** Receiving the same message again changes nothing at all. */
  lemma {:induction false} RedeliveryIdle(s: NodeState, m: AppendMsg, log: seq<LogEntry>)
    requires Indexed(log) && Follows(s, log) && m.Slice() && m.basis <= log
    ensures Receives(Receives(s, m), m) == Receives(s, m)
  {
    var r := Receives(s, m);
    ReceivedLog(s, m, log);
    ReceiveFollows(s, m, log);
    ReceivedLog(r, m, log);
    SecondReceipt(s, m);
  }

  /** Once received, a message brings no new term, leader or commit index. */
  lemma SecondReceipt(s: NodeState, m: AppendMsg)
    requires m.Slice() && InBounds(s) && InBounds(Receives(s, m))
    requires Receives(Receives(s, m), m).log == Receives(s, m).log
    ensures Receives(Receives(s, m), m) == Receives(s, m)
  {
    var r := Receives(s, m);
    DeliveredLog(s, m);
    DeliveredLog(r, m);
  }

  // ---------------------------------------------------------------- progress

  /** A follower accepts a message of no older term exactly when it leaves no gap behind the follower's log. */
  lemma AcceptedIff(s: NodeState, m: AppendMsg, log: seq<LogEntry>)
    requires Follows(s, log) && m.Slice() && m.basis <= log
    ensures AcceptsAppend(s, m.term, m.PrevIndex(), m.PrevTerm()) <==> m.term >= s.term && m.from <= |s.log|
  {
    if 0 < m.from <= |s.log| {
      assert s.log[m.from - 1] == log[m.from - 1] == m.basis[m.from - 1];
    }
  }

  /** At least n entries are in the log and committed up to `commit`, as far as there are entries. */
  predicate Reached(s: NodeState, commit: int, n: nat) {
    |s.log| >= n && s.commitIndex >= Min(commit, n - 1)
  }

  lemma {:induction false} AcceptedReaches(s: NodeState, m: AppendMsg, log: seq<LogEntry>)
    requires Indexed(log) && Follows(s, log) && m.Slice() && m.basis <= log
    requires m.term >= s.term && m.from <= |s.log|
    ensures Reached(Receives(s, m), m.commit, |m.basis|)
  {
    AcceptedIff(s, m, log);
    ReceivedLog(s, m, log);
    CommitMoves(s, m.leader, m.term, m.PrevIndex(), m.PrevTerm(), m.Entries(), m.commit);
  }

  lemma {:induction false} ReceivingKeepsReached(s: NodeState, m: AppendMsg, log: seq<LogEntry>, commit: int,
                                                 n: nat)
    requires Indexed(log) && Follows(s, log) && m.Slice() && m.basis <= log && Reached(s, commit, n)
    ensures Reached(Receives(s, m), commit, n)
  {
    ReceivedLog(s, m, log);
    CommitMoves(s, m.leader, m.term, m.PrevIndex(), m.PrevTerm(), m.Entries(), m.commit);
  }

  lemma NextKeepsReached(g: Group, e: Event, f: NodeId, commit: int, n: nat)
    requires GroupInv(g) && Possible(g, e) && f in g.followers && Reached(g.followers[f], commit, n)
    ensures f in Next(g, e).followers && Reached(Next(g, e).followers[f], commit, n)
  {
    if e.Receive? && e.follower == f {
      ReceivingKeepsReached(g.followers[f], e.msg, g.log, commit, n);
    }
  }

  /** Event i is the receipt of m by f, in a term that is not older and without a gap. */
  ghost predicate AcceptsAt(g: Group, events: seq<Event>, i: int, f: NodeId, m: AppendMsg) {
    0 <= i < |events| && events[i] == Receive(f, m) &&
    var h := Run(g, events[..i]);
    Possible(h, events[i]) && m.term >= h.followers[f].term && m.from <= |h.followers[f].log|
  }

  lemma {:induction false} StaysReached(g: Group, events: seq<Event>, i: int, f: NodeId, m: AppendMsg)
    requires GroupInv(g) && AcceptsAt(g, events, i, f, m)
    ensures f in Run(g, events).followers && Reached(Run(g, events).followers[f], m.commit, |m.basis|)
    decreases |events|
  {
    var front, e := events[..|events| - 1], events[|events| - 1];
    RunKeeps(g, front);
    if i == |front| {
      AcceptedReaches(Run(g, front).followers[f], m, Run(g, front).log);
    } else {
      assert events[..i] == front[..i];
      StaysReached(g, front, i, f, m);
      if Possible(Run(g, front), e) {
        NextKeepsReached(Run(g, front), e, f, m.commit, |m.basis|);
      }
    }
  }

  /** Progress: once a follower has accepted a message it has committed whatever the message says, as far as
      the message reaches, and applied all of it from entry 1 on, for the rest of the run. */
  lemma {:induction false} CommitReached(g: Group, events: seq<Event>, i: int, f: NodeId, m: AppendMsg)
    requires GroupInv(g) && AcceptsAt(g, events, i, f, m)
    ensures f in Run(g, events).followers
    ensures var h := Run(g, events); var s := h.followers[f];
            && |m.basis| <= |s.log| && s.log <= h.log
            && s.commitIndex >= Min(m.commit, |m.basis| - 1)
            && forall k :: 1 <= k <= m.commit && k < |m.basis| ==> k <= |s.applied| && s.applied[k - 1] == h.log[k]
  {
    StaysReached(g, events, i, f, m);
    RunKeeps(g, events);
    var h := Run(g, events);
    AppliedAre(h.followers[f], h.log);
  }

  lemma AppliedAre(s: NodeState, log: seq<LogEntry>)
    requires Follows(s, log)
    ensures forall k :: 1 <= k <= s.commitIndex ==> k <= |s.applied| && k < |log| && s.applied[k - 1] == log[k]
  {
    forall k | 1 <= k <= s.commitIndex ensures k <= |s.applied| && k < |log| && s.applied[k - 1] == log[k] {
      assert AppliedPart(s)[k - 1] == s.log[k];
    }
  }

  /** No follower commits beyond what it started with and what was ever sent. */
  lemma {:induction false} CommitBounded(g: Group, events: seq<Event>, f: NodeId, bound: int)
    requires f in g.followers && g.followers[f].commitIndex <= bound
    requires forall m :: m in Run(g, events).sent ==> m.commit <= bound
    ensures f in Run(g, events).followers && Run(g, events).followers[f].commitIndex <= bound
    decreases |events|
  {
    if events != [] {
      var front, e := events[..|events| - 1], events[|events| - 1];
      var h := Run(g, front);
      assert forall m :: m in h.sent ==> m in Run(g, events).sent;
      CommitBounded(g, front, f, bound);
      if Possible(h, e) && e.Receive? {
        var s, m := h.followers[e.follower], e.msg;
        CommitMoves(s, m.leader, m.term, m.PrevIndex(), m.PrevTerm(), m.Entries(), m.commit);
      }
    }
  }
}
