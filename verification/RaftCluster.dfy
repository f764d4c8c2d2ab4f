/** A cluster of Raft nodes as a transition system. Messages stay in the network for ever: each may be
    delivered late, more than once, in any order or never. An election is two steps, with any other
    steps between them, because the node gives up control while it waits for answers. */
module RaftClusters {
  import opened Prelude
  import opened RaftNodes

  /** `views[n]` is the list of all nodes that n was started with. The lists may differ in order and
      may repeat names, but they hold the same nodes. */
  datatype Config = Config(members: set<NodeId>, views: map<NodeId, seq<NodeId>>)

  ghost predicate ValidConfig(cfg: Config) {
    && cfg.views.Keys == cfg.members
    && forall n :: n in cfg.members ==> Elems(cfg.views[n]) == cfg.members
  }

  function Majority(cfg: Config, n: NodeId): nat
    requires n in cfg.views
  {
    |cfg.views[n]| / 2 + 1
  }

  /** A vote that `voter` gave `candidate` in `term`. */
  datatype Grant = Grant(voter: NodeId, candidate: NodeId, term: int)

  /** `node` became leader in `term`. */
  datatype Won = Won(node: NodeId, term: int)

  /** An append-entries message carries a slice of the sender's log from index `from` on; `basis` is
      that log, at the time of sending, up to the last entry carried. */
  datatype AppendMsg = AppendMsg(leader: NodeId, term: int, basis: seq<LogEntry>, from: nat, commit: int)
  {
    predicate Slice() {
      from <= |basis|
    }

    function Entries(): seq<LogEntry>
      requires Slice()
    {
      basis[from..]
    }

    function PrevIndex(): int {
      from - 1
    }

    function PrevTerm(): int
      requires Slice()
    {
      if from > 0 then basis[from - 1].term else 0
    }
  }

  /** Who created an entry, and that node's log up to and including it. */
  datatype Creation = Creation(creator: NodeId, prefix: seq<LogEntry>)

  /** `nodes` and `pending` (the term each election in progress was started for) are the nodes' state;
      the sets hold what was ever sent; `elected` and `created` are history. */
  datatype Cluster = Cluster(
    nodes: map<NodeId, NodeState>,
    pending: map<NodeId, int>,
    requests: set<VoteRequest>,
    grants: set<Grant>,
    elected: set<Won>,
    appends: set<AppendMsg>,
    created: map<(int, nat), Creation>)

  function Init(cfg: Config): Cluster {
    Cluster(map n | n in cfg.members :: INITIAL, map[], {}, {}, {}, {}, map[])
  }

  datatype Step =
    | StartStep(node: NodeId)
    | VoteStep(node: NodeId, request: VoteRequest)
    | FinishStep(node: NodeId, answers: seq<(NodeId, Response)>)
    | HeartbeatStep(node: NodeId, leader: NodeId, term: int)
    | CreateStep(node: NodeId, command: Command)
    | SendStep(node: NodeId, from: nat, upTo: nat, commit: int)
    | DeliverStep(node: NodeId, msg: AppendMsg)

  function Responses(answers: seq<(NodeId, Response)>): seq<Response> {
    seq(|answers|, i requires 0 <= i < |answers| => answers[i].1)
  }

  /** Answers come from distinct peers, and a granting one was really given in this election. */
  ghost predicate RealAnswers(c: Cluster, n: NodeId, answers: seq<(NodeId, Response)>)
    requires n in c.pending
  {
    && (forall i, j :: 0 <= i < j < |answers| ==> answers[i].0 != answers[j].0)
    && (forall i :: 0 <= i < |answers| ==> answers[i].0 in c.nodes && answers[i].0 != n)
    && (forall i :: 0 <= i < |answers| && answers[i].1.Response? && answers[i].1.granted ==>
          Grant(answers[i].0, n, c.pending[n]) in c.grants)
  }

  ghost predicate Enabled(cfg: Config, c: Cluster, step: Step) {
    && step.node in c.nodes && step.node in cfg.views
    && match step
       case StartStep(n) => n !in c.pending && c.nodes[n].role != Leader
       case VoteStep(n, r) => r in c.requests && n != r.candidate
       case FinishStep(n, answers) => n in c.pending && RealAnswers(c, n, answers)
       case HeartbeatStep(_, _, _) => true
       case CreateStep(n, _) => c.nodes[n].role == Leader
       case SendStep(n, from, upTo, _) => c.nodes[n].role == Leader && from <= upTo <= |c.nodes[n].log|
       case DeliverStep(n, m) => m in c.appends && n != m.leader && m.Slice()
  }

  function Start(cfg: Config, c: Cluster, n: NodeId): Cluster
    requires n in c.nodes
  {
    var s := StartElection(c.nodes[n], n);
    if cfg.members - {n} == {} then
      c.(nodes := c.nodes[n := BecomeLeader(s, n)], elected := c.elected + {Won(n, s.term)})
    else
      c.(nodes := c.nodes[n := s], pending := c.pending[n := s.term], requests := c.requests + {RequestOf(s, n)})
  }

  function Vote(c: Cluster, n: NodeId, r: VoteRequest): Cluster
    requires n in c.nodes
  {
    c.(nodes := c.nodes[n := RequestVote(c.nodes[n], r)],
       grants := if GrantsVote(c.nodes[n], r) then c.grants + {Grant(n, r.candidate, r.term)} else c.grants)
  }

  function Finish(cfg: Config, c: Cluster, n: NodeId, answers: seq<(NodeId, Response)>): Cluster
    requires n in c.nodes && n in cfg.views
  {
    var s := c.nodes[n];
    c.(nodes := c.nodes[n := FinishElection(s, n, Responses(answers), Majority(cfg, n))],
       pending := c.pending - {n},
       elected := if Wins(s, Responses(answers), Majority(cfg, n)) then c.elected + {Won(n, s.term)} else c.elected)
  }

  function Create(c: Cluster, n: NodeId, command: Command): Cluster
    requires n in c.nodes
  {
    var s := c.nodes[n];
    var t := AppendEntry(s, command);
    c.(nodes := c.nodes[n := t], created := c.created[(s.term, |s.log|) := Creation(n, t.log)])
  }

  function Deliver(c: Cluster, n: NodeId, m: AppendMsg): Cluster
    requires n in c.nodes && m.Slice()
  {
    c.(nodes := c.nodes[n :=
         AppendEntries(c.nodes[n], m.leader, m.term, m.PrevIndex(), m.PrevTerm(), m.Entries(), m.commit)])
  }

  ghost function Apply(cfg: Config, c: Cluster, step: Step): Cluster
    requires Enabled(cfg, c, step)
  {
    match step
    case StartStep(n) => Start(cfg, c, n)
    case VoteStep(n, r) => Vote(c, n, r)
    case FinishStep(n, answers) => Finish(cfg, c, n, answers)
    case HeartbeatStep(n, leader, term) => c.(nodes := c.nodes[n := ReceiveHeartbeat(c.nodes[n], leader, term)])
    case CreateStep(n, command) => Create(c, n, command)
    case SendStep(n, from, upTo, commit) =>
      var s := c.nodes[n];
      c.(appends := c.appends + {AppendMsg(n, s.term, s.log[..upTo], from, commit)})
    case DeliverStep(n, m) => Deliver(c, n, m)
  }

  /** `steps` can be taken one after the other from `c`. */
  ghost predicate IsRun(cfg: Config, c: Cluster, steps: seq<Step>)
    decreases |steps|, 0
  {
    steps == [] ||
    (IsRun(cfg, c, steps[..|steps| - 1])
     && Enabled(cfg, After(cfg, c, steps[..|steps| - 1]), steps[|steps| - 1]))
  }

  ghost function After(cfg: Config, c: Cluster, steps: seq<Step>): Cluster
    requires IsRun(cfg, c, steps)
    decreases |steps|, 1
  {
    if steps == [] then c
    else Apply(cfg, After(cfg, c, steps[..|steps| - 1]), steps[|steps| - 1])
  }
}
