/** The lock manager: a lock table, waiting lists and an index of locks by owner, beside the Raft log
    that it writes. Tasks give way to one another only where they sleep, so a run is a sequence of
    steps, one for each attempt, release, expiry or change of leadership. */
module LockManagers {
  import opened Prelude
  import opened RaftNodes

  datatype LockInfo = LockInfo(owner: NodeId, exclusive: bool, acquiredAt: real, ttl: Option<real>)

  datatype Waiter = Waiter(requester: NodeId, exclusive: bool)

  datatype Request = Request(lockId: string, requester: NodeId, exclusive: bool, ttl: Option<real>)

  /** `held` lists the locks of each node, `commands` is the content of the Raft log and `leads` tells
      whether the Raft node is the leader. */
  datatype Table = Table(
    locks: map<string, LockInfo>,
    queue: map<string, seq<Waiter>>,
    held: map<NodeId, seq<string>>,
    commands: seq<Command>,
    leads: bool)

  const START := Table(map[], map[], map[], [], false)

  // ---------------------------------------------------------------- releasing

  datatype ReleaseResult = NotLeader | NotFound | NotOwner | NotInList | Released(woken: Option<Waiter>)

  predicate TakesEffect(t: Table, id: string, owner: NodeId) {
    t.leads && id in t.locks && t.locks[id].owner == owner
  }

  /** Removing a lock from a list that lacks it raises an error, after the lock is gone from the
      table. */
  predicate ListLacks(t: Table, id: string, owner: NodeId) {
    owner in t.held && id !in t.held[owner]
  }

  function ReleaseOutcome(t: Table, id: string, owner: NodeId): ReleaseResult {
    if !t.leads then NotLeader
    else if id !in t.locks then NotFound
    else if t.locks[id].owner != owner then NotOwner
    else if ListLacks(t, id, owner) then NotInList
    else Released(if ListOf(t.queue, id) == [] then None else Some(t.queue[id][0]))
  }

  function RemoveFirst(s: seq<string>, x: string): seq<string> {
    if s == [] then []
    else if s[0] == x then s[1..]
    else [s[0]] + RemoveFirst(s[1..], x)
  }

  /** The error skips the waiting list. */
  function Release(t: Table, id: string, owner: NodeId): Table {
    if !TakesEffect(t, id, owner) then t
    else
      var u := t.(commands := t.commands + [ReleaseCmd(id, owner)], locks := t.locks - {id});
      if ListLacks(t, id, owner) then u
      else
        u.(held := if owner in t.held then t.held[owner := RemoveFirst(t.held[owner], id)] else t.held,
           queue := if ListOf(t.queue, id) == [] then t.queue else t.queue[id := t.queue[id][1..]])
  }

  // ---------------------------------------------------------------- acquiring

  predicate Expired(x: LockInfo, now: real) {
    x.ttl.Some? && now - x.acquiredAt > x.ttl.value
  }

  /** Outcome of one attempt: `Again` after an expired lock was released, `Refused` when the Raft node
      takes no command, `Waits` when the requester sleeps before its next attempt. */
  datatype Attempt = Granted | Refused | Again | Waits

  function InfoOf(r: Request, now: real): LockInfo {
    LockInfo(r.requester, r.exclusive, now, r.ttl)
  }

  function TryOutcome(t: Table, r: Request, now: real): Attempt {
    if r.lockId !in t.locks then (if t.leads then Granted else Refused)
    else if Expired(t.locks[r.lockId], now) then Again
    else if !r.exclusive && !t.locks[r.lockId].exclusive then Granted
    else Waits
  }

  function Try(t: Table, r: Request, now: real): Table {
    match TryOutcome(t, r, now)
    case Refused => t
    case Again => Release(t, r.lockId, t.locks[r.lockId].owner)
    case Waits =>
      t.(queue := t.queue[r.lockId := ListOf(t.queue, r.lockId) + [Waiter(r.requester, r.exclusive)]])
    case Granted =>
      if r.lockId in t.locks then t.(locks := t.locks[r.lockId := InfoOf(r, now)])
      else
        t.(locks := t.locks[r.lockId := InfoOf(r, now)],
           held := t.held[r.requester := ListOf(t.held, r.requester) + [r.lockId]],
           commands := t.commands + [AcquireCmd(r.lockId, r.requester, r.exclusive)])
  }

  function Expire(t: Table, id: string, now: real): Table {
    if id in t.locks && Expired(t.locks[id], now) then Release(t, id, t.locks[id].owner) else t
  }

  /** A lock and the reading of the clock when its expiry is tested. */
  datatype Look = Look(id: string, now: real)

  /** A cleanup expires lock after lock. */
  function CleanUp(t: Table, looks: seq<Look>): Table {
    if looks == [] then t
    else Expire(CleanUp(t, looks[..|looks| - 1]), looks[|looks| - 1].id, looks[|looks| - 1].now)
  }

  /** A call of acquire from one sleep to the next: attempts at successive clock readings, until one is
      not to be repeated at once or the time is up. */
  datatype Ending = Ends(attempt: Attempt) | TimedOut

  function Attempts(t: Table, r: Request, deadline: real, clock: seq<real>): (Table, Ending)
    decreases |clock|
  {
    if clock == [] || clock[0] >= deadline then (t, TimedOut)
    else if TryOutcome(t, r, clock[0]) == Again then Attempts(Try(t, r, clock[0]), r, deadline, clock[1..])
    else (Try(t, r, clock[0]), Ends(TryOutcome(t, r, clock[0])))
  }

  // ---------------------------------------------------------------- runs

  /** Any attempt or release may come at any time, so every interleaving of retries, woken waiters and
      cleanups is a run. `OtherEvent` is a command of another component. */
  datatype Event =
    | TryEvent(request: Request, now: real)
    | ReleaseEvent(lockId: string, owner: NodeId)
    | ExpireEvent(expiring: string, now: real)
    | LeadEvent(leads: bool)
    | OtherEvent(name: string)

  function Step(t: Table, e: Event): Table {
    match e
    case TryEvent(r, now) => Try(t, r, now)
    case ReleaseEvent(id, owner) => Release(t, id, owner)
    case ExpireEvent(id, now) => Expire(t, id, now)
    case LeadEvent(b) => t.(leads := b)
    case OtherEvent(name) => if t.leads then t.(commands := t.commands + [OtherCmd(name)]) else t
  }

  /** The table before step k of a run. */
  function At(t: Table, es: seq<Event>, k: nat): Table
    requires k <= |es|
  {
    if k == 0 then t else Step(At(t, es, k - 1), es[k - 1])
  }

  function After(t: Table, es: seq<Event>): Table {
    At(t, es, |es|)
  }

  lemma {:induction false} AtMore(t: Table, es: seq<Event>, e: Event, k: nat)
    requires k <= |es|
    ensures At(t, es + [e], k) == At(t, es, k)
  {
    if k > 0 {
      AtMore(t, es, e, k - 1);
    }
  }

  lemma AfterMore(t: Table, es: seq<Event>, e: Event)
    ensures After(t, es + [e]) == Step(After(t, es), e)
  {
    AtMore(t, es, e, |es|);
  }

  lemma {:induction false} AtFirst(t: Table, e: Event, es: seq<Event>, k: nat)
    requires k <= |es|
    ensures At(t, [e] + es, k + 1) == At(Step(t, e), es, k)
  {
    if k > 0 {
      AtFirst(t, e, es, k - 1);
    } else {
      assert At(t, [e] + es, 0) == t;
    }
  }

  lemma {:induction false} CleanUpIsRun(t: Table, looks: seq<Look>) returns (es: seq<Event>)
    ensures CleanUp(t, looks) == After(t, es)
    ensures |es| == |looks| && forall i :: 0 <= i < |es| ==> es[i] == ExpireEvent(looks[i].id, looks[i].now)
  {
    if looks == [] {
      es := [];
    } else {
      var last := looks[|looks| - 1];
      var front := CleanUpIsRun(t, looks[..|looks| - 1]);
      AfterMore(t, front, ExpireEvent(last.id, last.now));
      es := front + [ExpireEvent(last.id, last.now)];
    }
  }

  lemma {:induction false} AttemptsAreRun(t: Table, r: Request, deadline: real, clock: seq<real>)
    returns (es: seq<Event>)
    ensures Attempts(t, r, deadline, clock).0 == After(t, es)
    ensures |es| <= |clock| && forall i :: 0 <= i < |es| ==> es[i] == TryEvent(r, clock[i])
    decreases |clock|
  {
    if clock == [] || clock[0] >= deadline {
      es := [];
    } else {
      var first := TryEvent(r, clock[0]);
      var rest: seq<Event> := [];
      if TryOutcome(t, r, clock[0]) == Again {
        rest := AttemptsAreRun(Try(t, r, clock[0]), r, deadline, clock[1..]);
      }
      AtFirst(t, first, rest, |rest|);
      es := [first] + rest;
    }
  }

  // ---------------------------------------------------------------- who holds a lock, and until when

  /** The owner for whom a step calls release on lock id. */
  function Releasing(t: Table, e: Event, id: string): Option<NodeId> {
    match e
    case ReleaseEvent(l, owner) => if l == id then Some(owner) else None
    case TryEvent(r, now) =>
      if r.lockId == id && id in t.locks && Expired(t.locks[id], now) then Some(t.locks[id].owner) else None
    case ExpireEvent(l, now) =>
      if l == id && id in t.locks && Expired(t.locks[id], now) then Some(t.locks[id].owner) else None
    case _ => None
  }

  /** The step is a release by the owner, or finds the lock expired, on a leader. */
  predicate Frees(t: Table, e: Event, id: string) {
    Releasing(t, e, id).Some? && TakesEffect(t, id, Releasing(t, e, id).value)
  }

  predicate Grants(t: Table, e: Event, id: string) {
    e.TryEvent? && e.request.lockId == id && TryOutcome(t, e.request, e.now) == Granted
  }

  /** A shared lock is granted while another owner is on record. */
  predicate Overwrites(t: Table, e: Event) {
    && e.TryEvent?
    && Grants(t, e, e.request.lockId)
    && e.request.lockId in t.locks && t.locks[e.request.lockId].owner != e.request.requester
  }

  /** A held lock gets free exactly by an owner's release or an expiry. Until then its type stays, and
      an exclusive one keeps its owner, time and ttl and is granted to nobody. */
  lemma HeldUntilFreed(t: Table, e: Event, id: string)
    requires id in t.locks
    ensures id !in Step(t, e).locks <==> Frees(t, e, id)
    ensures !Frees(t, e, id) ==>
              && Step(t, e).locks[id].exclusive == t.locks[id].exclusive
              && (Grants(t, e, id) ==> !t.locks[id].exclusive && !e.request.exclusive)
              && (!Grants(t, e, id) ==> Step(t, e).locks[id] == t.locks[id])
  {
    if e.TryEvent? && TryOutcome(t, e.request, e.now) == Waits {
      assert Step(t, e).locks == t.locks;
    }
  }

  /** Lock id is still held as granted with x: by anyone if x is shared. */
  predicate Keeps(t: Table, id: string, x: LockInfo) {
    id in t.locks && t.locks[id].exclusive == x.exclusive && (x.exclusive ==> t.locks[id] == x)
  }

  lemma StepKeeps(t: Table, e: Event, id: string, x: LockInfo)
    requires Keeps(t, id, x)
    ensures Frees(t, e, id) || Keeps(Step(t, e), id, x)
    ensures Grants(t, e, id) ==> !x.exclusive && !e.request.exclusive
  {
    HeldUntilFreed(t, e, id);
  }

  /** Exclusive grants do not overlap with any grant: between two grants of a lock of which at least
      one is exclusive, some step frees it, by a release of the owner on record or by its expiry. Up to
      that step an exclusive holder stays on record unchanged. */
  lemma {:induction false} GrantsDoNotOverlap(t: Table, es: seq<Event>, i: nat, j: nat, id: string) returns (k: nat)
    requires i < j < |es|
    requires Grants(At(t, es, i), es[i], id) && Grants(At(t, es, j), es[j], id)
    requires es[i].request.exclusive || es[j].request.exclusive
    ensures i < k < j && Frees(At(t, es, k), es[k], id)
    ensures es[i].request.exclusive ==>
              id in At(t, es, k).locks && At(t, es, k).locks[id] == InfoOf(es[i].request, es[i].now)
  {
    var x := InfoOf(es[i].request, es[i].now);
    k := i + 1;
    while k < j && !Frees(At(t, es, k), es[k], id)
      invariant i < k <= j
      invariant Keeps(At(t, es, k), id, x)
    {
      StepKeeps(At(t, es, k), es[k], id, x);
      k := k + 1;
    }
    if k == j {
      StepKeeps(At(t, es, j), es[j], id, x);
      assert false;
    }
  }

  /** An expired lock never makes a requester wait on a leader. */
  lemma ExpiredNeverBlocks(t: Table, r: Request, deadline: real, clock: seq<real>)
    requires t.leads && |clock| >= 2 && clock[0] < deadline
    requires r.lockId in t.locks && Expired(t.locks[r.lockId], clock[0])
    ensures Attempts(t, r, deadline, clock).1 == if clock[1] < deadline then Ends(Granted) else TimedOut
  {
    HeldUntilFreed(t, TryEvent(r, clock[0]), r.lockId);
    assert clock[1..][0] == clock[1];
  }

  /** Some look finds lock id, as it is in t, expired. */
  predicate FoundExpired(t: Table, looks: seq<Look>, id: string) {
    id in t.locks && exists i :: 0 <= i < |looks| && looks[i].id == id && Expired(t.locks[id], looks[i].now)
  }

  /** A cleanup on a leader removes exactly the locks found expired, and changes no other. */
  lemma {:induction false} CleanUpRemovesExpired(t: Table, looks: seq<Look>)
    ensures CleanUp(t, looks).leads == t.leads
    ensures forall k :: k in CleanUp(t, looks).locks <==> k in t.locks && !(t.leads && FoundExpired(t, looks, k))
    ensures forall k :: k in CleanUp(t, looks).locks ==> CleanUp(t, looks).locks[k] == t.locks[k]
  {
    if looks != [] {
      var front, last := looks[..|looks| - 1], looks[|looks| - 1];
      var c := CleanUp(t, front);
      CleanUpRemovesExpired(t, front);
      forall k
        ensures k in Expire(c, last.id, last.now).locks <==> k in t.locks && !(t.leads && FoundExpired(t, looks, k))
      {
        FoundMore(t, front, last, k);
        assert looks == front + [last];
      }
    }
  }

  lemma FoundMore(t: Table, looks: seq<Look>, look: Look, id: string)
    ensures FoundExpired(t, looks + [look], id)
       <==> FoundExpired(t, looks, id) || (id in t.locks && look.id == id && Expired(t.locks[id], look.now))
  {
    var more := looks + [look];
    if i :| 0 <= i < |looks| && looks[i].id == id && id in t.locks && Expired(t.locks[id], looks[i].now) {
      assert more[i] == looks[i];
    }
    assert more[|looks|] == look;
  }

  // ---------------------------------------------------------------- agreement with the Raft log

  predicate Concerns(c: Command, id: string) {
    (c.AcquireCmd? || c.ReleaseCmd?) && c.lockId == id
  }

  function OfLock(cs: seq<Command>, id: string): seq<Command> {
    if cs == [] then []
    else OfLock(cs[..|cs| - 1], id) + if Concerns(cs[|cs| - 1], id) then [cs[|cs| - 1]] else []
  }

  lemma {:induction false} OfLockMore(cs: seq<Command>, c: Command, id: string)
    ensures OfLock(cs + [c], id) == if Concerns(c, id) then OfLock(cs, id) + [c] else OfLock(cs, id)
  {
    assert (cs + [c])[..|cs|] == cs;
  }

  /** An acquire is followed by a release, its owner's if exclusive, and a release by an acquire. */
  predicate Follows(c: Command, d: Command) {
    match c
    case AcquireCmd(_, owner, exclusive) => d.ReleaseCmd? && (exclusive ==> d.owner == owner)
    case ReleaseCmd(_, _) => d.AcquireCmd?
    case _ => false
  }

  /** Acquire, release, acquire, and so on. */
  ghost predicate Alternates(cs: seq<Command>) {
    && (cs != [] ==> cs[0].AcquireCmd?)
    && (forall i, j :: 0 <= i < j < |cs| && j == i + 1 ==> Follows(cs[i], cs[j]))
  }

  lemma AlternatesMore(cs: seq<Command>, c: Command)
    requires Alternates(cs) && if cs == [] then c.AcquireCmd? else Follows(cs[|cs| - 1], c)
    ensures Alternates(cs + [c])
  {
  }

  /** The lock is in the table exactly when its last command is an acquire, of the same type, and of the
      same owner when exclusive. */
  ghost predicate Agrees(t: Table, id: string) {
    var cs := OfLock(t.commands, id);
    && Alternates(cs)
    && if id in t.locks then cs != [] && Records(cs[|cs| - 1], t.locks[id])
       else cs == [] || cs[|cs| - 1].ReleaseCmd?
  }

  predicate Records(c: Command, x: LockInfo) {
    c.AcquireCmd? && c.exclusive == x.exclusive && (x.exclusive ==> c.owner == x.owner)
  }

  /** Agreement is about the commands and the entry of the lock alone. */
  lemma SameAgrees(t: Table, u: Table, id: string)
    requires Agrees(t, id)
    requires OfLock(u.commands, id) == OfLock(t.commands, id)
    requires id in u.locks <==> id in t.locks
    requires id in t.locks ==> u.locks[id] == t.locks[id] || (!u.locks[id].exclusive && !t.locks[id].exclusive)
    ensures Agrees(u, id)
  {
  }

  lemma ReleasedAgrees(t: Table, u: Table, id: string, owner: NodeId)
    requires Agrees(t, id) && id in t.locks && t.locks[id].owner == owner && id !in u.locks
    requires OfLock(u.commands, id) == OfLock(t.commands, id) + [ReleaseCmd(id, owner)]
    ensures Agrees(u, id)
  {
    AlternatesMore(OfLock(t.commands, id), ReleaseCmd(id, owner));
  }

  lemma ReleaseChanges(t: Table, l: string, owner: NodeId)
    requires TakesEffect(t, l, owner)
    ensures Release(t, l, owner).locks == t.locks - {l}
    ensures Release(t, l, owner).commands == t.commands + [ReleaseCmd(l, owner)]
  {
  }

  lemma ReleaseKeepsAgreement(t: Table, l: string, owner: NodeId, id: string)
    requires Agrees(t, id)
    ensures Agrees(Release(t, l, owner), id)
  {
    if TakesEffect(t, l, owner) {
      ReleaseChanges(t, l, owner);
      RemovalAgrees(t, Release(t, l, owner), l, owner, id);
    }
  }

  lemma RemovalAgrees(t: Table, u: Table, l: string, owner: NodeId, id: string)
    requires Agrees(t, id) && l in t.locks && t.locks[l].owner == owner
    requires u.locks == t.locks - {l} && u.commands == t.commands + [ReleaseCmd(l, owner)]
    ensures Agrees(u, id)
  {
    OfLockMore(t.commands, ReleaseCmd(l, owner), id);
    if l == id {
      ReleasedAgrees(t, u, id, owner);
    } else {
      SameAgrees(t, u, id);
    }
  }

  lemma GrantKeepsAgreement(t: Table, r: Request, now: real, id: string)
    requires Agrees(t, id) && r.lockId !in t.locks && t.leads
    ensures Agrees(Try(t, r, now), id)
  {
    var u, cs, c := Try(t, r, now), OfLock(t.commands, id), AcquireCmd(r.lockId, r.requester, r.exclusive);
    OfLockMore(t.commands, c, id);
    assert u.commands == t.commands + [c] && u.locks == t.locks[r.lockId := InfoOf(r, now)];
    if r.lockId == id {
      AlternatesMore(cs, c);
      assert OfLock(u.commands, id) == cs + [c] && (cs + [c])[|cs|] == c;
    } else {
      SameAgrees(t, u, id);
    }
  }

  lemma TryKeepsAgreement(t: Table, r: Request, now: real, id: string)
    requires Agrees(t, id)
    ensures Agrees(Try(t, r, now), id)
  {
    if TryOutcome(t, r, now) == Again {
      ReleaseKeepsAgreement(t, r.lockId, t.locks[r.lockId].owner, id);
    } else if r.lockId !in t.locks && t.leads {
      GrantKeepsAgreement(t, r, now, id);
    } else {
      assert Try(t, r, now).commands == t.commands;
      SameAgrees(t, Try(t, r, now), id);
    }
  }

  lemma StepKeepsAgreement(t: Table, e: Event, id: string)
    requires Agrees(t, id)
    ensures Agrees(Step(t, e), id)
  {
    match e
    case TryEvent(r, now) => TryKeepsAgreement(t, r, now, id);
    case ReleaseEvent(l, owner) => ReleaseKeepsAgreement(t, l, owner, id);
    case ExpireEvent(l, now) =>
      if Step(t, e) != t {
        ReleaseKeepsAgreement(t, l, t.locks[l].owner, id);
      }
    case LeadEvent(_) => SameAgrees(t, Step(t, e), id);
    case OtherEvent(name) =>
      OfLockMore(t.commands, OtherCmd(name), id);
      SameAgrees(t, Step(t, e), id);
  }

  /** Whatever happens, shared grants and expiry included, the lock table agrees with the log at every
      point of a run. */
  lemma {:induction false} TableAgreesWithLog(es: seq<Event>, k: nat, id: string)
    requires k <= |es|
    ensures Agrees(At(START, es, k), id)
  {
    if k > 0 {
      TableAgreesWithLog(es, k - 1, id);
      StepKeepsAgreement(At(START, es, k - 1), es[k - 1], id);
    }
  }

  /** The owner on record is the one that the log names. */
  predicate OwnerLogged(t: Table, id: string) {
    id in t.locks ==>
      var cs := OfLock(t.commands, id);
      cs != [] && cs[|cs| - 1].AcquireCmd? && cs[|cs| - 1].owner == t.locks[id].owner
  }

  lemma CommandKeepsOwners(t: Table, c: Command, u: Table, id: string)
    requires OwnerLogged(t, id) && u.commands == t.commands + [c]
    requires id in u.locks ==>
               if Concerns(c, id) then c.AcquireCmd? && c.owner == u.locks[id].owner
               else id in t.locks && u.locks[id] == t.locks[id]
    ensures OwnerLogged(u, id)
  {
    OfLockMore(t.commands, c, id);
  }

  lemma ReleaseKeepsOwners(t: Table, l: string, owner: NodeId, id: string)
    requires OwnerLogged(t, id)
    ensures OwnerLogged(Release(t, l, owner), id)
  {
    if TakesEffect(t, l, owner) {
      assert Release(t, l, owner).locks == t.locks - {l};
      CommandKeepsOwners(t, ReleaseCmd(l, owner), Release(t, l, owner), id);
    }
  }

  lemma OtherwiseKeepsOwner(t: Table, e: Event, id: string)
    requires OwnerLogged(t, id) && !Overwrites(t, e)
    ensures OwnerLogged(Step(t, e), id)
  {
    match e
    case ReleaseEvent(l, owner) => ReleaseKeepsOwners(t, l, owner, id);
    case ExpireEvent(l, now) =>
      if Step(t, e) != t {
        ReleaseKeepsOwners(t, l, t.locks[l].owner, id);
      }
    case LeadEvent(_) =>
    case OtherEvent(name) =>
      if t.leads {
        CommandKeepsOwners(t, OtherCmd(name), Step(t, e), id);
      }
    case TryEvent(r, now) =>
      if TryOutcome(t, r, now) == Again {
        ReleaseKeepsOwners(t, r.lockId, t.locks[r.lockId].owner, id);
      } else if r.lockId !in t.locks && t.leads {
        CommandKeepsOwners(t, AcquireCmd(r.lockId, r.requester, r.exclusive), Step(t, e), id);
      }
  }

  /** A step makes the log name another owner than the table exactly when it grants a shared lock over
      another owner. */
  lemma StepKeepsOwnersIff(t: Table, e: Event)
    requires forall id :: OwnerLogged(t, id)
    ensures (forall id :: OwnerLogged(Step(t, e), id)) <==> !Overwrites(t, e)
  {
    if Overwrites(t, e) {
      assert OwnerLogged(t, e.request.lockId);
      assert !OwnerLogged(Step(t, e), e.request.lockId);
    } else {
      forall id ensures OwnerLogged(Step(t, e), id) {
        OtherwiseKeepsOwner(t, e, id);
      }
    }
  }

  // ---------------------------------------------------------------- the index of locks by owner

  ghost predicate IndexedFor(t: Table, owner: NodeId, id: string) {
    multiset(ListOf(t.held, owner))[id] == if id in t.locks && t.locks[id].owner == owner then 1 else 0
  }

  /** Each lock is listed once for its owner and not at all for others. */
  ghost predicate Indexed(t: Table) {
    forall owner, id :: IndexedFor(t, owner, id)
  }

  lemma {:induction false} RemoveFirstCount(s: seq<string>, x: string)
    requires x in s
    ensures multiset(RemoveFirst(s, x)) == multiset(s) - multiset{x}
  {
    assert s == [s[0]] + s[1..];
    if s[0] != x {
      RemoveFirstCount(s[1..], x);
    }
  }

  lemma ReleaseKeepsIndex(t: Table, id: string, owner: NodeId)
    requires Indexed(t)
    ensures Indexed(Release(t, id, owner)) && ReleaseOutcome(t, id, owner) != NotInList
  {
    if TakesEffect(t, id, owner) {
      assert IndexedFor(t, owner, id);
      var u := Release(t, id, owner);
      RemoveFirstCount(t.held[owner], id);
      forall o, l ensures IndexedFor(u, o, l) {
        assert IndexedFor(t, o, l);
      }
    }
  }

  lemma GrantKeepsIndex(t: Table, r: Request, now: real)
    requires Indexed(t) && r.lockId !in t.locks && t.leads
    ensures Indexed(Try(t, r, now))
  {
    forall o, l ensures IndexedFor(Try(t, r, now), o, l) {
      assert IndexedFor(t, o, l);
      GrantIndexes(t, r, now, o, l);
    }
  }

  lemma GrantIndexes(t: Table, r: Request, now: real, o: NodeId, l: string)
    requires IndexedFor(t, o, l) && r.lockId !in t.locks && t.leads
    ensures IndexedFor(Try(t, r, now), o, l)
  {
    var before := ListOf(t.held, r.requester);
    assert ListOf(Try(t, r, now).held, r.requester) == before + [r.lockId];
    assert multiset(before + [r.lockId]) == multiset(before) + multiset{r.lockId};
  }

  /** A step breaks the index exactly when it grants a shared lock over another owner. */
  lemma StepKeepsIndexIff(t: Table, e: Event)
    requires Indexed(t)
    ensures Indexed(Step(t, e)) <==> !Overwrites(t, e)
  {
    var u := Step(t, e);
    if Overwrites(t, e) {
      var id := e.request.lockId;
      assert IndexedFor(t, t.locks[id].owner, id);
      assert !IndexedFor(u, t.locks[id].owner, id);
    } else if e.TryEvent? && TryOutcome(t, e.request, e.now) == Granted && e.request.lockId !in t.locks {
      GrantKeepsIndex(t, e.request, e.now);
    } else if e.LeadEvent? || e.OtherEvent? || (e.TryEvent? && TryOutcome(t, e.request, e.now) != Again) {
      assert u.held == t.held;
      forall o, l ensures IndexedFor(u, o, l) {
        assert IndexedFor(t, o, l);
      }
    } else if e.ReleaseEvent? {
      ReleaseKeepsIndex(t, e.lockId, e.owner);
    } else {
      var id := if e.TryEvent? then e.request.lockId else e.expiring;
      if id in t.locks {
        ReleaseKeepsIndex(t, id, t.locks[id].owner);
      }
    }
  }

  /** The index is right in the first n + 1 tables of a run. */
  ghost predicate IndexedUpTo(es: seq<Event>, n: nat)
    requires n <= |es|
  {
    forall k :: 0 <= k <= n ==> Indexed(At(START, es, k))
  }

  predicate OverwritesAt(es: seq<Event>, k: nat)
    requires k < |es|
  {
    Overwrites(At(START, es, k), es[k])
  }

  /** The exact condition over whole runs: the index is right throughout if and only if no shared lock is
      ever granted over another owner. */
  lemma {:induction false} IndexedThroughoutIff(es: seq<Event>, n: nat)
    requires n <= |es|
    ensures IndexedUpTo(es, n) <==> forall k :: 0 <= k < n ==> !OverwritesAt(es, k)
  {
    if n == 0 {
      assert Indexed(At(START, es, 0));
    } else {
      IndexedThroughoutIff(es, n - 1);
      assert IndexedUpTo(es, n) <==> IndexedUpTo(es, n - 1) && Indexed(At(START, es, n));
      if IndexedUpTo(es, n - 1) {
        assert Indexed(At(START, es, n - 1));
        StepKeepsIndexIff(At(START, es, n - 1), es[n - 1]);
        assert Indexed(At(START, es, n)) <==> !OverwritesAt(es, n - 1);
      }
    }
  }

  predicate OnlyExclusive(es: seq<Event>) {
    forall i :: 0 <= i < |es| ==> es[i].TryEvent? ==> es[i].request.exclusive
  }

  /** With exclusive locks only, the index is exact at every point of a run, so no release fails on it. */
  lemma {:induction false} ExclusiveRunsIndexed(es: seq<Event>, k: nat)
    requires OnlyExclusive(es) && k <= |es|
    ensures Indexed(At(START, es, k))
    ensures forall id :: id in At(START, es, k).locks ==> At(START, es, k).locks[id].exclusive
    ensures forall id, owner :: ReleaseOutcome(At(START, es, k), id, owner) != NotInList
  {
    if k > 0 {
      ExclusiveRunsIndexed(es, k - 1);
      StepKeepsIndexIff(At(START, es, k - 1), es[k - 1]);
      StaysExclusive(At(START, es, k - 1), es[k - 1]);
    }
    forall id, owner ensures ReleaseOutcome(At(START, es, k), id, owner) != NotInList {
      ReleaseKeepsIndex(At(START, es, k), id, owner);
    }
  }

  lemma StaysExclusive(t: Table, e: Event)
    requires forall id :: id in t.locks ==> t.locks[id].exclusive
    requires e.TryEvent? ==> e.request.exclusive
    ensures !Overwrites(t, e)
    ensures forall id :: id in Step(t, e).locks ==> Step(t, e).locks[id].exclusive
  {
  }

  /** With shared locks a release can report failure although it took effect. Node b holds another lock
      and is granted `id` over owner a: its release is in the log and frees the lock, but fails on b's
      list, and the waiter c is not woken. */
  lemma FailedReleaseTakesEffect(id: string, other: string, a: NodeId, b: NodeId, c: NodeId, now: real)
    returns (es: seq<Event>)
    requires id != other && a != b
    ensures var t := After(START, es);
            var u := Release(t, id, b);
            && ReleaseOutcome(t, id, b) == NotInList
            && id in t.locks && id !in u.locks
            && u.commands == t.commands + [ReleaseCmd(id, b)]
            && u.queue == t.queue && ListOf(t.queue, id) == [Waiter(c, true)]
  {
    var lead := LeadEvent(true);
    var e1 := TryEvent(Request(id, a, false, None), now);
    var e2 := TryEvent(Request(other, b, true, None), now);
    var e3 := TryEvent(Request(id, c, true, None), now);
    var e4 := TryEvent(Request(id, b, false, None), now);
    AfterMore(START, [], lead);
    AfterMore(START, [] + [lead], e1);
    AfterMore(START, [] + [lead] + [e1], e2);
    AfterMore(START, [] + [lead] + [e1] + [e2], e3);
    AfterMore(START, [] + [lead] + [e1] + [e2] + [e3], e4);
    es := [] + [lead] + [e1] + [e2] + [e3] + [e4];
    assert ListOf(After(START, es).held, b) == [other];
  }

  // ---------------------------------------------------------------- waiters

  function WaitsAt(t: Table, e: Event, id: string): seq<Waiter> {
    if e.TryEvent? && e.request.lockId == id && TryOutcome(t, e.request, e.now) == Waits
    then [Waiter(e.request.requester, e.request.exclusive)] else []
  }

  function WokenAt(t: Table, e: Event, id: string): seq<Waiter> {
    if Frees(t, e, id) then WokenBy(t, id, Releasing(t, e, id).value) else []
  }

  function WokenBy(t: Table, id: string, owner: NodeId): seq<Waiter> {
    var outcome := ReleaseOutcome(t, id, owner);
    if outcome.Released? && outcome.woken.Some? then [outcome.woken.value] else []
  }

  function Waited(t: Table, es: seq<Event>, k: nat, id: string): seq<Waiter>
    requires k <= |es|
  {
    if k == 0 then [] else Waited(t, es, k - 1, id) + WaitsAt(At(t, es, k - 1), es[k - 1], id)
  }

  function Woken(t: Table, es: seq<Event>, k: nat, id: string): seq<Waiter>
    requires k <= |es|
  {
    if k == 0 then [] else Woken(t, es, k - 1, id) + WokenAt(At(t, es, k - 1), es[k - 1], id)
  }

  lemma ReleaseMovesWaiters(t: Table, l: string, owner: NodeId, id: string)
    ensures ListOf(t.queue, id)
         == (if l == id then WokenBy(t, l, owner) else []) + ListOf(Release(t, l, owner).queue, id)
  {
    var before := ListOf(t.queue, id);
    if WokenBy(t, l, owner) != [] {
      assert l == id ==> before == [before[0]] + before[1..];
    }
  }

  lemma StepMovesWaiters(t: Table, e: Event, id: string)
    ensures ListOf(t.queue, id) + WaitsAt(t, e, id) == WokenAt(t, e, id) + ListOf(Step(t, e).queue, id)
  {
    if e.ReleaseEvent? {
      ReleaseMovesWaiters(t, e.lockId, e.owner, id);
    } else if e.ExpireEvent? && e.expiring in t.locks {
      ReleaseMovesWaiters(t, e.expiring, t.locks[e.expiring].owner, id);
    } else if e.TryEvent? && TryOutcome(t, e.request, e.now) == Again {
      ReleaseMovesWaiters(t, e.request.lockId, t.locks[e.request.lockId].owner, id);
    }
  }

  /** Waiters are woken in the order in which they queued up, none is lost or added: those woken,
      followed by those still waiting, are those who queued up. */
  lemma {:induction false} WokenInOrder(es: seq<Event>, k: nat, id: string)
    requires k <= |es|
    ensures Waited(START, es, k, id) == Woken(START, es, k, id) + ListOf(At(START, es, k).queue, id)
  {
    if k > 0 {
      var t, e := At(START, es, k - 1), es[k - 1];
      WokenInOrder(es, k - 1, id);
      WaitersMoveOn(Waited(START, es, k - 1, id), Woken(START, es, k - 1, id), t, e, id);
    }
  }

  lemma WaitersMoveOn(waited: seq<Waiter>, woken: seq<Waiter>, t: Table, e: Event, id: string)
    requires waited == woken + ListOf(t.queue, id)
    ensures waited + WaitsAt(t, e, id) == (woken + WokenAt(t, e, id)) + ListOf(Step(t, e).queue, id)
  {
    StepMovesWaiters(t, e, id);
    PassOn(woken, ListOf(t.queue, id), WaitsAt(t, e, id), WokenAt(t, e, id), ListOf(Step(t, e).queue, id));
  }

  lemma PassOn(woken: seq<Waiter>, queue: seq<Waiter>, joins: seq<Waiter>, leaves: seq<Waiter>, rest: seq<Waiter>)
    requires queue + joins == leaves + rest
    ensures (woken + queue) + joins == (woken + leaves) + rest
  {
    assert (woken + queue) + joins == woken + (queue + joins);
  }

  // ---------------------------------------------------------------- the manager in place

  function CommandsOf(log: seq<LogEntry>): seq<Command> {
    seq(|log|, i requires 0 <= i < |log| => log[i].command)
  }

  class DistributedLockManager {
    const raft: RaftNode
    var locks: map<string, LockInfo>
    var lockQueue: map<string, seq<Waiter>>
    var nodeLocks: map<NodeId, seq<string>>
    var acquisitions: nat
    var rejections: nat

    ghost function State(): Table
      reads this, raft
    {
      Table(locks, lockQueue, nodeLocks, CommandsOf(raft.log), raft.role == Leader)
    }

    constructor (raft: RaftNode)
      ensures this.raft == raft && acquisitions == rejections == 0
      ensures State() == START.(commands := CommandsOf(raft.log), leads := raft.role == Leader)
    {
      this.raft := raft;
      locks, lockQueue, nodeLocks, acquisitions, rejections := map[], map[], map[], 0, 0;
    }

    method ReleaseLock(id: string, owner: NodeId) returns (result: ReleaseResult)
      requires raft.Valid()
      modifies this, raft
      ensures raft.Valid() && acquisitions == old(acquisitions) && rejections == old(rejections)
      ensures State() == Release(old(State()), id, owner)
      ensures result == ReleaseOutcome(old(State()), id, owner)
    {
      if raft.role != Leader {
        return NotLeader;
      }
      if id !in locks {
        return NotFound;
      }
      if locks[id].owner != owner {
        return NotOwner;
      }
      var index := raft.Append(ReleaseCmd(id, owner));
      assert CommandsOf(raft.log) == CommandsOf(old(raft.log)) + [ReleaseCmd(id, owner)];
      locks := locks - {id};
      if owner in nodeLocks {
        if id !in nodeLocks[owner] {
          return NotInList;
        }
        nodeLocks := nodeLocks[owner := RemoveFirst(nodeLocks[owner], id)];
      }
      if id in lockQueue && lockQueue[id] != [] {
        var waiter := lockQueue[id][0];
        lockQueue := lockQueue[id := lockQueue[id][1..]];
        return Released(Some(waiter));
      }
      return Released(None);
    }

    /** One pass of the acquire loop. */
    method TryOnce(r: Request, now: real) returns (attempt: Attempt)
      requires raft.Valid()
      modifies this, raft
      ensures raft.Valid() && rejections == old(rejections)
      ensures State() == Try(old(State()), r, now)
      ensures attempt == TryOutcome(old(State()), r, now)
      ensures acquisitions == old(acquisitions) + if attempt == Granted then 1 else 0
    {
      var info := InfoOf(r, now);
      if r.lockId !in locks {
        var index := raft.Append(AcquireCmd(r.lockId, r.requester, r.exclusive));
        if index.None? {
          return Refused;
        }
        assert CommandsOf(raft.log) == CommandsOf(old(raft.log)) + [AcquireCmd(r.lockId, r.requester, r.exclusive)];
        locks := locks[r.lockId := info];
        if r.requester !in nodeLocks {
          nodeLocks := nodeLocks[r.requester := []];
        }
        nodeLocks := nodeLocks[r.requester := nodeLocks[r.requester] + [r.lockId]];
        assert nodeLocks == old(nodeLocks)[r.requester := ListOf(old(nodeLocks), r.requester) + [r.lockId]];
        acquisitions := acquisitions + 1;
        return Granted;
      }
      if Expired(locks[r.lockId], now) {
        var result := ReleaseLock(r.lockId, locks[r.lockId].owner);
        return Again;
      }
      if !r.exclusive && !locks[r.lockId].exclusive {
        locks := locks[r.lockId := info];
        acquisitions := acquisitions + 1;
        return Granted;
      }
      AddWaiter(r.lockId, Waiter(r.requester, r.exclusive));
      return Waits;
    }

    method AddWaiter(id: string, waiter: Waiter)
      modifies this`lockQueue
      ensures lockQueue == old(lockQueue)[id := ListOf(old(lockQueue), id) + [waiter]]
    {
      if id !in lockQueue {
        lockQueue := lockQueue[id := []];
      }
      lockQueue := lockQueue[id := lockQueue[id] + [waiter]];
      assert lockQueue == old(lockQueue)[id := ListOf(old(lockQueue), id) + [waiter]];
    }

    /** A call that starts at the first clock reading, up to its end or its first sleep. */
    method AcquireLock(r: Request, timeout: real, clock: seq<real>) returns (ending: Option<Ending>)
      requires raft.Valid()
      requires |clock| > 0 && clock[|clock| - 1] >= clock[0] + timeout
      modifies this, raft
      ensures raft.Valid()
      ensures !old(State()).leads ==> ending.None? && State() == old(State())
      ensures old(State()).leads ==>
                && State() == Attempts(old(State()), r, clock[0] + timeout, clock).0
                && ending == Some(Attempts(old(State()), r, clock[0] + timeout, clock).1)
      ensures rejections == old(rejections) + if ending == Some(TimedOut) then 1 else 0
      ensures acquisitions == old(acquisitions) + if ending == Some(Ends(Granted)) then 1 else 0
    {
      if raft.role != Leader {
        return None;
      }
      var e := ContinueAcquire(r, clock[0] + timeout, clock);
      return Some(e);
    }

    /** From the start of a call or the end of a sleep to the end of the call or the next sleep. The
        clock passes the deadline at last. */
    method ContinueAcquire(r: Request, deadline: real, clock: seq<real>) returns (ending: Ending)
      requires raft.Valid()
      requires |clock| > 0 && clock[|clock| - 1] >= deadline
      modifies this, raft
      ensures raft.Valid()
      ensures State() == Attempts(old(State()), r, deadline, clock).0
      ensures ending == Attempts(old(State()), r, deadline, clock).1
      ensures rejections == old(rejections) + if ending == TimedOut then 1 else 0
      ensures acquisitions == old(acquisitions) + if ending == Ends(Granted) then 1 else 0
    {
      var i := 0;
      while clock[i] < deadline
        invariant 0 <= i < |clock| && raft.Valid()
        invariant Attempts(State(), r, deadline, clock[i..]) == Attempts(old(State()), r, deadline, clock)
        invariant rejections == old(rejections) && acquisitions == old(acquisitions)
        decreases |clock| - i
      {
        assert clock[i..][1..] == clock[i + 1..];
        var attempt := TryOnce(r, clock[i]);
        if attempt != Again {
          return Ends(attempt);
        }
        i := i + 1;
      }
      rejections := rejections + 1;
      return TimedOut;
    }

    /** `listing` holds the keys in the order of the dictionary, each with the reading of the clock when it
        is looked at. */
    method CleanupExpiredLocks(listing: seq<Look>)
      requires raft.Valid()
      requires NoDup(Names(listing)) && forall id :: id in Names(listing) <==> id in locks
      modifies this, raft
      ensures raft.Valid()
      ensures State() == CleanUp(old(State()), ExpiredLooks(old(locks), listing))
      ensures forall id :: id in locks <==>
                             id in old(locks) && !(old(State()).leads && FoundExpired(old(State()), listing, id))
      ensures forall id :: id in locks ==> locks[id] == old(locks)[id]
    {
      var expired: seq<Look> := [];
      var i := 0;
      while i < |listing|
        invariant 0 <= i <= |listing| && State() == old(State()) && raft.Valid()
        invariant expired == ExpiredLooks(locks, listing[..i])
      {
        assert listing[..i + 1] == listing[..i] + [listing[i]];
        assert Names(listing)[i] == listing[i].id;
        ExpiredMore(locks, listing[..i], listing[i]);
        if Expired(locks[listing[i].id], listing[i].now) {
          expired := expired + [listing[i]];
        }
        i := i + 1;
      }
      assert listing[..i] == listing;
      ExpiredAre(locks, listing);
      CleanUpRemovesExpired(State(), expired);
      forall id ensures FoundExpired(State(), expired, id) <==> FoundExpired(State(), listing, id) {
        ExpiredFound(State(), listing, id);
      }
      ReleaseAll(expired);
    }

    method ReleaseAll(expired: seq<Look>)
      requires raft.Valid() && NoDup(Names(expired))
      requires forall i :: 0 <= i < |expired| ==>
                 expired[i].id in locks && Expired(locks[expired[i].id], expired[i].now)
      modifies this, raft
      ensures raft.Valid()
      ensures State() == CleanUp(old(State()), expired)
    {
      for i := 0 to |expired|
        invariant raft.Valid()
        invariant State() == CleanUp(old(State()), expired[..i])
      {
        CleanUpMore(old(State()), expired[..i], expired[i]);
        StillThere(old(State()), expired, i);
        assert expired[..i + 1] == expired[..i] + [expired[i]];
        var result := ReleaseLock(expired[i].id, locks[expired[i].id].owner);
      }
      assert expired[..|expired|] == expired;
    }
  }

  /** A lock is untouched when its turn comes. */
  lemma {:induction false} StillThere(t: Table, looks: seq<Look>, i: nat)
    requires i < |looks| && NoDup(Names(looks)) && looks[i].id in t.locks
    ensures looks[i].id in CleanUp(t, looks[..i]).locks
    ensures CleanUp(t, looks[..i]).locks[looks[i].id] == t.locks[looks[i].id]
  {
    CleanUpRemovesExpired(t, looks[..i]);
    forall j | 0 <= j < i ensures looks[..i][j].id != looks[i].id {
      assert Names(looks)[j] != Names(looks)[i];
    }
  }

  lemma CleanUpMore(t: Table, looks: seq<Look>, look: Look)
    ensures CleanUp(t, looks + [look]) == Expire(CleanUp(t, looks), look.id, look.now)
  {
    assert (looks + [look])[..|looks|] == looks;
  }

  function Names(looks: seq<Look>): seq<string> {
    seq(|looks|, i requires 0 <= i < |looks| => looks[i].id)
  }

  /** The looks that find their lock expired. */
  function ExpiredLooks(locks: map<string, LockInfo>, looks: seq<Look>): seq<Look> {
    if looks == [] then []
    else
      var last := looks[|looks| - 1];
      ExpiredLooks(locks, looks[..|looks| - 1])
      + if last.id in locks && Expired(locks[last.id], last.now) then [last] else []
  }

  lemma ExpiredMore(locks: map<string, LockInfo>, looks: seq<Look>, look: Look)
    ensures ExpiredLooks(locks, looks + [look])
         == ExpiredLooks(locks, looks) + if look.id in locks && Expired(locks[look.id], look.now) then [look] else []
  {
    assert (looks + [look])[..|looks|] == looks;
  }

  lemma {:induction false} ExpiredFound(t: Table, looks: seq<Look>, id: string)
    ensures FoundExpired(t, ExpiredLooks(t.locks, looks), id) <==> FoundExpired(t, looks, id)
  {
    if looks != [] {
      var front, last := looks[..|looks| - 1], looks[|looks| - 1];
      assert looks == front + [last];
      ExpiredFound(t, front, id);
      ExpiredMore(t.locks, front, last);
      FoundMore(t, front, last, id);
      FoundMore(t, ExpiredLooks(t.locks, front), last, id);
      assert ExpiredLooks(t.locks, front) + [] == ExpiredLooks(t.locks, front);
    }
  }

  lemma {:induction false} ExpiredAre(locks: map<string, LockInfo>, looks: seq<Look>)
    requires NoDup(Names(looks))
    ensures NoDup(Names(ExpiredLooks(locks, looks)))
    ensures forall i :: 0 <= i < |ExpiredLooks(locks, looks)| ==>
      var x := ExpiredLooks(locks, looks)[i];
      x.id in Names(looks) && x.id in locks && Expired(locks[x.id], x.now)
  {
    if looks != [] {
      var front, last := looks[..|looks| - 1], looks[|looks| - 1];
      assert looks == front + [last] && Names(looks) == Names(front) + [last.id];
      forall i, j | 0 <= i < j < |front| ensures Names(front)[i] != Names(front)[j] {
        assert Names(front)[i] == Names(looks)[i] && Names(front)[j] == Names(looks)[j];
      }
      ExpiredAre(locks, front);
      ExpiredMore(locks, front, last);
      assert last.id !in Names(front) by {
        forall i | 0 <= i < |front| ensures Names(front)[i] != last.id {
          assert Names(looks)[i] != Names(looks)[|front|];
        }
      }
      var xs := ExpiredLooks(locks, front);
      assert forall i :: 0 <= i < |xs| ==> Names(xs)[i] == xs[i].id;
    }
  }
}
