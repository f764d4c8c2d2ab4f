/** One Raft node: the handlers of src/consensus/raft.py as functions on a node's state, and the
    class whose methods update that state in place and are proved against those functions. */
module RaftNodes {
  import opened Prelude

  /** Commands that the components append to the Raft log. */
  datatype Command =
    | AcquireCmd(lockId: string, owner: NodeId, exclusive: bool)
    | ReleaseCmd(lockId: string, owner: NodeId)
    | EnqueueCmd(queue: string, messageId: string)
    | OtherCmd(name: string)

  datatype LogEntry = LogEntry(term: int, index: nat, command: Command)

  datatype Role = Follower | Candidate | Leader

  /** `applied` is the trace of entries handed to the state machine so far. */
  datatype NodeState = NodeState(
    role: Role,
    term: int,
    votedFor: Option<NodeId>,
    currentLeader: Option<NodeId>,
    log: seq<LogEntry>,
    commitIndex: int,
    lastApplied: int,
    applied: seq<LogEntry>)

  const INITIAL := NodeState(Follower, 0, None, None, [], 0, 0, [])

  datatype VoteRequest = VoteRequest(candidate: NodeId, term: int, lastLogIndex: int, lastLogTerm: int)

  /** A peer's answer to a vote request: lost, or a record whose fields may be missing. */
  datatype Response = NoResponse | Response(term: Option<int>, granted: bool)

  datatype Reply = Reply(term: int, ok: bool)

  /** Outcome of walking through the answers to a vote request. */
  datatype Count = Votes(n: nat) | NewerTerm(term: int)

  // ---------------------------------------------------------------- handlers as functions

  function BecomeFollower(s: NodeState, term: int): NodeState {
    s.(term := term, votedFor := None, role := Follower)
  }

  function BecomeLeader(s: NodeState, me: NodeId): NodeState {
    s.(currentLeader := Some(me), role := Leader)
  }

  function ReceiveHeartbeat(s: NodeState, leader: NodeId, term: int): NodeState {
    if term < s.term then s
    else
      s.(currentLeader := Some(leader), role := Follower,
         votedFor := if term > s.term then None else s.votedFor,
         term := term)
  }

  function LastLogTerm(log: seq<LogEntry>): int {
    if log == [] then 0 else log[|log| - 1].term
  }

  /** The part of an election before the requests are sent, for a node that has peers. */
  function StartElection(s: NodeState, me: NodeId): NodeState {
    s.(role := Candidate, term := s.term + 1, votedFor := Some(me), currentLeader := None)
  }

  function RequestOf(s: NodeState, me: NodeId): VoteRequest {
    VoteRequest(me, s.term, |s.log| - 1, LastLogTerm(s.log))
  }

  /** Answers are examined in order; an answer with a newer term than the node's ends the walk. */
  function CountVotes(term: int, answers: seq<Response>, votes: nat): (count: Count)
    ensures count.NewerTerm? ==> count.term > term
    ensures count.Votes? ==> votes <= count.n <= votes + |answers|
  {
    if answers == [] then Votes(votes)
    else match answers[0]
      case NoResponse => CountVotes(term, answers[1..], votes)
      case Response(t, granted) =>
        if t.Some? && t.value > term then NewerTerm(t.value)
        else CountVotes(term, answers[1..], if granted then votes + 1 else votes)
  }

  predicate Newer(a: Response, term: int) {
    a.Response? && a.term.Some? && a.term.value > term
  }

  /** The positions from k on whose answers grant a vote. */
  function Granting(answers: seq<Response>, k: nat): set<nat> {
    set i: nat | k <= i < |answers| && answers[i].Response? && answers[i].granted
  }

  /** What the walk from position k amounts to: the first newer term, if there is one; otherwise all
      granted votes. */
  lemma {:induction false} CountVotesMeans(term: int, answers: seq<Response>, k: nat, votes: nat)
    requires k <= |answers|
    ensures var count := CountVotes(term, answers[k..], votes);
            && (count.Votes? <==> forall i :: k <= i < |answers| ==> !Newer(answers[i], term))
            && (count.Votes? ==> count.n == votes + |Granting(answers, k)|)
            && (count.NewerTerm? ==>
                  exists i :: k <= i < |answers| && Newer(answers[i], term) && answers[i].term.value == count.term
                              && forall j :: k <= j < i ==> !Newer(answers[j], term))
    decreases |answers| - k
  {
    if k < |answers| {
      var a := answers[k];
      var grants := a.Response? && a.granted;
      assert answers[k..][1..] == answers[k + 1..];
      assert Granting(answers, k) == Granting(answers, k + 1) + if grants then {k} else {};
      if !Newer(a, term) {
        CountVotesMeans(term, answers, k + 1, if grants then votes + 1 else votes);
      }
    } else {
      assert Granting(answers, k) == {};
    }
  }

  predicate Wins(s: NodeState, answers: seq<Response>, majority: nat) {
    var count := CountVotes(s.term, answers, 1);
    count.Votes? && count.n >= majority && s.role == Candidate
  }

  /** The part of an election after the answers have come in. */
  function FinishElection(s: NodeState, me: NodeId, answers: seq<Response>, majority: nat): NodeState {
    match CountVotes(s.term, answers, 1)
    case NewerTerm(t) => BecomeFollower(s, t)
    case Votes(n) =>
      if n >= majority && s.role == Candidate then BecomeLeader(s, me)
      else BecomeFollower(s, s.term)
  }

  /** What the end of an election comes to, said of the answers alone: the first newer term among them is
      adopted; without one the candidate leads if it has a majority of votes with its own, and whoever does
      not lead gives up its vote and follows, in the same term. */
  ghost predicate Concluded(s: NodeState, t: NodeState, me: NodeId, answers: seq<Response>, majority: nat) {
    if i :| 0 <= i < |answers| && FirstNewer(answers, s.term, i) then
      t == s.(term := answers[i].term.value, votedFor := None, role := Follower)
    else if s.role == Candidate && 1 + |Granting(answers, 0)| >= majority then
      t == s.(currentLeader := Some(me), role := Leader)
    else
      t == s.(votedFor := None, role := Follower)
  }

  ghost predicate FirstNewer(answers: seq<Response>, term: int, i: int) {
    0 <= i < |answers| && Newer(answers[i], term) && forall j :: 0 <= j < i ==> !Newer(answers[j], term)
  }

  lemma {:induction false} FinishConcludes(s: NodeState, me: NodeId, answers: seq<Response>, majority: nat)
    ensures Concluded(s, FinishElection(s, me, answers, majority), me, answers, majority)
  {
    assert answers[0..] == answers;
    CountVotesMeans(s.term, answers, 0, 1);
    var count := CountVotes(s.term, answers, 1);
    if count.NewerTerm? {
      var i :| 0 <= i < |answers| && Newer(answers[i], s.term) && answers[i].term.value == count.term
               && forall j :: 0 <= j < i ==> !Newer(answers[j], s.term);
      assert FirstNewer(answers, s.term, i);
    }
  }

  predicate UpToDate(log: seq<LogEntry>, lastIndex: int, lastTerm: int) {
    lastTerm > LastLogTerm(log) || (lastTerm == LastLogTerm(log) && lastIndex >= |log| - 1)
  }

  function AdoptTerm(s: NodeState, term: int): NodeState {
    if term > s.term then BecomeFollower(s, term) else s
  }

  predicate GrantsVote(s: NodeState, r: VoteRequest) {
    var a := AdoptTerm(s, r.term);
    && r.term >= a.term
    && (a.votedFor.None? || a.votedFor == Some(r.candidate))
    && UpToDate(a.log, r.lastLogIndex, r.lastLogTerm)
  }

  function RequestVote(s: NodeState, r: VoteRequest): NodeState {
    var a := AdoptTerm(s, r.term);
    if GrantsVote(s, r) then a.(votedFor := Some(r.candidate)) else a
  }

  function AppendEntry(s: NodeState, command: Command): NodeState {
    s.(log := s.log + [LogEntry(s.term, |s.log|, command)])
  }

  /** One incoming entry: appended past the end, or written over an entry of another term. The
      entries after an overwritten one stay. */
  function MergeOne(log: seq<LogEntry>, e: LogEntry): seq<LogEntry> {
    if e.index >= |log| then log + [e]
    else if log[e.index].term != e.term then log[e.index := e]
    else log
  }

  /** The first n incoming entries, one after the other. */
  function MergeFirst(log: seq<LogEntry>, entries: seq<LogEntry>, n: nat): seq<LogEntry>
    requires n <= |entries|
  {
    if n == 0 then log else MergeOne(MergeFirst(log, entries, n - 1), entries[n - 1])
  }

  function Merge(log: seq<LogEntry>, entries: seq<LogEntry>): seq<LogEntry> {
    MergeFirst(log, entries, |entries|)
  }

  /** The consistency check on the entry that precedes the incoming ones. */
  predicate PrevMatches(log: seq<LogEntry>, prevIndex: int, prevTerm: int) {
    prevIndex >= 0 ==> prevIndex < |log| && log[prevIndex].term == prevTerm
  }

  function ApplyCommitted(s: NodeState): NodeState {
    if 0 <= s.lastApplied < s.commitIndex < |s.log| then
      s.(lastApplied := s.commitIndex,
         applied := s.applied + s.log[s.lastApplied + 1..s.commitIndex + 1])
    else s
  }

  function AdvanceCommit(s: NodeState, leaderCommit: int): NodeState {
    if leaderCommit > s.commitIndex then
      ApplyCommitted(s.(commitIndex := Min(leaderCommit, |s.log| - 1)))
    else s
  }

  predicate AcceptsAppend(s: NodeState, term: int, prevIndex: int, prevTerm: int) {
    term >= s.term && PrevMatches(s.log, prevIndex, prevTerm)
  }

  function AppendEntries(s: NodeState, leader: NodeId, term: int, prevIndex: int, prevTerm: int,
                         entries: seq<LogEntry>, leaderCommit: int): NodeState {
    var a := AdoptTerm(s, term);
    if term < a.term then a
    else
      var b := a.(currentLeader := Some(leader));
      if !PrevMatches(b.log, prevIndex, prevTerm) then b
      else AdvanceCommit(b.(log := Merge(b.log, entries)), leaderCommit)
  }

  // ---------------------------------------------------------------- what every handler does

  /** Every message brings its receiver to the later of both terms. The vote of the old term goes with it,
      and so does the role. Within a term a given vote stays, and only a heartbeat changes the role. */
  lemma HandlersAdoptTerm(s: NodeState, leader: NodeId, term: int, r: VoteRequest, prevIndex: int, prevTerm: int,
                          entries: seq<LogEntry>, leaderCommit: int)
    ensures var h, v := ReceiveHeartbeat(s, leader, term), RequestVote(s, r);
            var a := AppendEntries(s, leader, term, prevIndex, prevTerm, entries, leaderCommit);
            && h.term == Max(s.term, term) && v.term == Max(s.term, r.term) && a.term == Max(s.term, term)
            && h.log == s.log && v.log == s.log
            && h.votedFor == (if term > s.term then None else s.votedFor)
            && a.votedFor == (if term > s.term then None else s.votedFor)
            && v.votedFor == (if GrantsVote(s, r) then Some(r.candidate)
                              else if r.term > s.term then None else s.votedFor)
            && (term >= s.term ==> h.role == Follower && h.currentLeader == Some(leader) == a.currentLeader)
            && (term < s.term ==> h == s == a)
            && a.role == (if term > s.term then Follower else s.role)
            && v.role == (if r.term > s.term then Follower else s.role)
            && v.currentLeader == s.currentLeader
  {
  }

  /** The log restriction of section 5.4.1 of the Raft paper: a node that has not reached the term of an
      election votes for its candidate exactly when the candidate's log ends in a later term, or in the same
      term and is no shorter. */
  lemma VoteFollowsLogs(v: NodeState, s: NodeState, n: NodeId)
    requires v.term <= s.term
    ensures var mine, theirs := if v.log == [] then 0 else v.log[|v.log| - 1].term,
                                if s.log == [] then 0 else s.log[|s.log| - 1].term;
            GrantsVote(v, RequestOf(StartElection(s, n), n))
            <==> theirs > mine || (theirs == mine && |s.log| >= |v.log|)
  {
  }

  /** How far a message moves the commit index: as far as it says and the merged log allows, never back past
      what the log allows, and not at all unless it is accepted. */
  lemma CommitMoves(s: NodeState, leader: NodeId, term: int, prevIndex: int, prevTerm: int,
                    entries: seq<LogEntry>, leaderCommit: int)
    ensures var r := AppendEntries(s, leader, term, prevIndex, prevTerm, entries, leaderCommit);
            r.commitIndex == if AcceptsAppend(s, term, prevIndex, prevTerm) && leaderCommit > s.commitIndex
                             then Min(leaderCommit, |r.log| - 1) else s.commitIndex
  {
  }

  // ---------------------------------------------------------------- what every handler keeps

  /** Commit and apply counters stay inside the log. `commitIndex` is -1 after a commit on an empty
      log, and entry 0 is never applied. */
  predicate InBounds(s: NodeState) {
    && -1 <= s.commitIndex
    && (s.commitIndex > 0 ==> s.commitIndex < |s.log|)
    && s.lastApplied == Max(0, s.commitIndex)
    && |s.applied| == s.lastApplied
  }

  lemma {:induction false} MergeNeverShrinks(log: seq<LogEntry>, entries: seq<LogEntry>, n: nat)
    requires n <= |entries|
    ensures |MergeFirst(log, entries, n)| >= |log|
  {
    if n > 0 {
      MergeNeverShrinks(log, entries, n - 1);
    }
  }

  lemma NothingApplied(s: NodeState)
    requires InBounds(s)
    ensures s.applied == s.applied + (if s.lastApplied > 0 then s.log[s.lastApplied + 1..s.lastApplied + 1] else [])
  {
  }

  lemma AdvanceCommitAppliesInOrder(s: NodeState, leaderCommit: int)
    requires InBounds(s)
    ensures var r := AdvanceCommit(s, leaderCommit);
            && InBounds(r)
            && r.log == s.log
            && s.lastApplied <= r.lastApplied
            && (r.lastApplied > 0 ==> r.lastApplied < |r.log|)
            && r.applied == s.applied + (if r.lastApplied > 0 then r.log[s.lastApplied + 1..r.lastApplied + 1] else [])
  {
    var r := AdvanceCommit(s, leaderCommit);
    if r.lastApplied == s.lastApplied {
      assert r.applied == s.applied;
      assert r.lastApplied > 0 ==> r.log[s.lastApplied + 1..r.lastApplied + 1] == [];
    }
  }

  /** Applying is in bounds and takes exactly the newly committed slice: whatever message arrives,
      the trace of applied entries grows by the log entries between the old and the new
      commit index, so each position from 1 on is applied once and in order. */
  lemma AppendEntriesAppliesInOrder(s: NodeState, leader: NodeId, term: int, prevIndex: int, prevTerm: int,
                                    entries: seq<LogEntry>, leaderCommit: int)
    requires InBounds(s)
    ensures var r := AppendEntries(s, leader, term, prevIndex, prevTerm, entries, leaderCommit);
            && InBounds(r)
            && s.lastApplied <= r.lastApplied
            && (r.lastApplied > 0 ==> r.lastApplied < |r.log|)
            && r.applied == s.applied + (if r.lastApplied > 0 then r.log[s.lastApplied + 1..r.lastApplied + 1] else [])
  {
    if AcceptsAppend(s, term, prevIndex, prevTerm) {
      var c := AdoptTerm(s, term).(currentLeader := Some(leader), log := Merge(s.log, entries));
      assert AppendEntries(s, leader, term, prevIndex, prevTerm, entries, leaderCommit)
          == AdvanceCommit(c, leaderCommit);
      LongerInBounds(s, c, entries);
      AdvanceCommitAppliesInOrder(c, leaderCommit);
    } else {
      NothingApplied(s);
    }
  }

  lemma LongerInBounds(s: NodeState, c: NodeState, entries: seq<LogEntry>)
    requires InBounds(s) && c.log == Merge(s.log, entries)
    requires c.commitIndex == s.commitIndex && c.lastApplied == s.lastApplied && c.applied == s.applied
    ensures InBounds(c)
  {
    MergeNeverShrinks(s.log, entries, |entries|);
  }

  // ---------------------------------------------------------------- the node in place

  class RaftNode {
    const id: NodeId
    const allNodes: seq<NodeId>
    const peers: seq<NodeId>

    var role: Role
    var term: int
    var votedFor: Option<NodeId>
    var currentLeader: Option<NodeId>
    var log: seq<LogEntry>
    var commitIndex: int
    var lastApplied: int
    ghost var applied: seq<LogEntry>

    ghost function State(): NodeState
      reads this
    {
      NodeState(role, term, votedFor, currentLeader, log, commitIndex, lastApplied, applied)
    }

    ghost predicate Valid()
      reads this
    {
      InBounds(State())
    }

    constructor (id: NodeId, allNodes: seq<NodeId>)
      ensures Valid() && State() == INITIAL
      ensures this.id == id && this.allNodes == allNodes
      ensures peers == Without(id, allNodes)
    {
      this.id, this.allNodes := id, allNodes;
      role, term, votedFor, currentLeader := Follower, 0, None, None;
      log, commitIndex, lastApplied, applied := [], 0, 0, [];
      var ps: seq<NodeId> := [];
      for i := 0 to |allNodes|
        invariant ps == Without(id, allNodes[..i])
      {
        WithoutMore(id, allNodes[..i], allNodes[i]);
        assert allNodes[..i + 1] == allNodes[..i] + [allNodes[i]];
        if allNodes[i] != id {
          ps := ps + [allNodes[i]];
        }
      }
      assert allNodes[..|allNodes|] == allNodes;
      peers := ps;
    }

    function MajorityCount(): (m: nat)
      ensures 2 * m > |allNodes| && 2 * (m - 1) <= |allNodes|
    {
      |allNodes| / 2 + 1
    }

    method StepToFollower(newTerm: int)
      requires Valid()
      modifies this
      ensures Valid() && State() == BecomeFollower(old(State()), newTerm)
    {
      term, votedFor, role := newTerm, None, Follower;
    }

    method StepToLeader()
      requires Valid()
      modifies this
      ensures Valid() && State() == BecomeLeader(old(State()), id)
    {
      currentLeader, role := Some(id), Leader;
    }

    method OnHeartbeat(leader: NodeId, hbTerm: int)
      requires Valid()
      modifies this
      ensures Valid() && State() == ReceiveHeartbeat(old(State()), leader, hbTerm)
    {
      if hbTerm >= term {
        if hbTerm > term {
          term, votedFor := hbTerm, None;
        }
        currentLeader, role := Some(leader), Follower;
      }
    }

    /** Up to the point where the node waits for answers; no request when it does not wait. `attached` tells
        whether the node has a transport. */
    method BeginElection(attached: bool) returns (request: Option<VoteRequest>)
      requires Valid()
      modifies this
      ensures Valid()
      ensures old(role) == Leader ==> request.None? && State() == old(State())
      ensures old(role) != Leader && (!attached || peers == []) ==>
                request.None? && State() == BecomeLeader(StartElection(old(State()), id), id)
      ensures old(role) != Leader && attached && peers != [] ==>
                && State() == StartElection(old(State()), id)
                && request == Some(RequestOf(State(), id))
      ensures request.Some? ==>
                && role == Candidate && term == old(term) + 1 && votedFor == Some(id) && currentLeader == None
                && request.value.candidate == id && request.value.term == term
                && request.value.lastLogIndex == |log| - 1
    {
      if role == Leader {
        return None;
      }
      role, term, votedFor, currentLeader := Candidate, term + 1, Some(id), None;
      if !attached || peers == [] {
        StepToLeader();
        return None;
      }
      return Some(VoteRequest(id, term, |log| - 1, LastLogTerm(log)));
    }

    method EndElection(answers: seq<Response>)
      requires Valid()
      modifies this
      ensures Valid() && State() == FinishElection(old(State()), id, answers, MajorityCount())
      ensures Concluded(old(State()), State(), id, answers, MajorityCount())
    {
      FinishConcludes(State(), id, answers, MajorityCount());
      var votes: nat := 1;
      var i := 0;
      while i < |answers|
        invariant 0 <= i <= |answers|
        invariant State() == old(State())
        invariant CountVotes(term, answers, 1) == CountVotes(term, answers[i..], votes)
      {
        assert answers[i..][1..] == answers[i + 1..];
        if answers[i].Response? {
          if answers[i].term.Some? && answers[i].term.value > term {
            StepToFollower(answers[i].term.value);
            return;
          }
          if answers[i].granted {
            votes := votes + 1;
          }
        }
        i := i + 1;
      }
      if votes >= MajorityCount() && role == Candidate {
        StepToLeader();
      } else {
        StepToFollower(term);
      }
    }

    method OnRequestVote(r: VoteRequest) returns (reply: Reply)
      requires Valid()
      modifies this
      ensures Valid() && State() == RequestVote(old(State()), r)
      ensures reply.ok == GrantsVote(old(State()), r)
      ensures reply.term == State().term
    {
      if r.term > term {
        StepToFollower(r.term);
      }
      if r.term < term {
        return Reply(term, false);
      }
      var localTerm, localIndex := LastLogTerm(log), |log| - 1;
      var upToDate := r.lastLogTerm > localTerm || (r.lastLogTerm == localTerm && r.lastLogIndex >= localIndex);
      if (votedFor.None? || votedFor == Some(r.candidate)) && upToDate {
        votedFor := Some(r.candidate);
        return Reply(r.term, true);
      }
      return Reply(term, false);
    }

    /** `None` stands for the error raised on a node that is not leader. */
    method Append(command: Command) returns (index: Option<nat>)
      requires Valid()
      modifies this
      ensures Valid()
      ensures old(role) != Leader ==> index.None? && State() == old(State())
      ensures old(role) == Leader ==>
                index == Some(|old(log)|) && State() == AppendEntry(old(State()), command)
    {
      if role != Leader {
        return None;
      }
      index := Some(|log|);
      log := log + [LogEntry(term, |log|, command)];
    }

    method OnAppendEntries(leader: NodeId, msgTerm: int, prevIndex: int, prevTerm: int,
                           entries: seq<LogEntry>, leaderCommit: int) returns (reply: Reply)
      requires Valid()
      modifies this
      ensures Valid()
      ensures State() == AppendEntries(old(State()), leader, msgTerm, prevIndex, prevTerm, entries, leaderCommit)
      ensures reply == Reply(State().term, AcceptsAppend(old(State()), msgTerm, prevIndex, prevTerm))
    {
      if msgTerm > term {
        StepToFollower(msgTerm);
      }
      if msgTerm < term {
        return Reply(term, false);
      }
      currentLeader := Some(leader);
      if prevIndex >= 0 {
        if prevIndex >= |log| || log[prevIndex].term != prevTerm {
          return Reply(term, false);
        }
      }
      MergeEntries(entries);
      if leaderCommit > commitIndex {
        commitIndex := Min(leaderCommit, |log| - 1);
        ApplyCommittedEntries();
      }
      return Reply(term, true);
    }

    method MergeEntries(entries: seq<LogEntry>)
      requires Valid()
      modifies this`log
      ensures Valid() && log == Merge(old(log), entries)
    {
      var i := 0;
      while i < |entries|
        invariant 0 <= i <= |entries|
        invariant log == MergeFirst(old(log), entries, i)
      {
        var e := entries[i];
        if e.index >= |log| {
          log := log + [e];
        } else if log[e.index].term != e.term {
          log := log[e.index := e];
        }
        i := i + 1;
      }
      MergeNeverShrinks(old(log), entries, |entries|);
    }

    method ApplyCommittedEntries()
      requires 0 <= lastApplied == |applied| && (commitIndex > 0 ==> commitIndex < |log|)
      requires lastApplied <= Max(0, commitIndex) && -1 <= commitIndex
      modifies this`lastApplied, this`applied
      ensures Valid() && State() == ApplyCommitted(old(State()))
    {
      ghost var start := lastApplied;
      while lastApplied < commitIndex
        invariant start <= lastApplied <= Max(0, commitIndex)
        invariant lastApplied < |log| || lastApplied == start
        invariant applied == old(applied) + (if lastApplied > start then log[start + 1..lastApplied + 1] else [])
      {
        lastApplied := lastApplied + 1;
        var entry := log[lastApplied];
        applied := applied + [entry];
      }
    }
  }
}
