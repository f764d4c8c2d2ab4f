/** Runs of the lock manager told by their requests, releases and clock readings: who holds a lock and until
    when, what an attempt or a release comes to, what is in the log, and who is woken. */
module LockHistories {
  import opened Prelude
  import opened RaftNodes
  import opened LockManagers

  /** The last change of leadership made the node leader. */
  predicate Leads(es: seq<Event>, k: nat)
    requires k <= |es|
  {
    k > 0 && if es[k - 1].LeadEvent? then es[k - 1].leads else Leads(es, k - 1)
  }

  lemma {:induction false} LeadsIs(es: seq<Event>, k: nat)
    requires k <= |es|
    ensures At(START, es, k).leads == Leads(es, k)
  {
    if k > 0 {
      LeadsIs(es, k - 1);
    }
  }

  /** Attempt k is granted lock id. */
  predicate Granted(es: seq<Event>, k: nat, id: string)
    requires k < |es|
  {
    Grants(At(START, es, k), es[k], id)
  }

  /** A lock granted to request r at time `since` has outlived its time to live. */
  predicate TimeIsUp(r: Request, since: real, now: real) {
    r.ttl.Some? && now > since + r.ttl.value
  }

  predicate LooksAt(e: Event, id: string) {
    (e.TryEvent? && e.request.lockId == id) || (e.ExpireEvent? && e.expiring == id)
  }

  /** Step k ends the grant of step i: on a leader, a release by the requester of i, or an attempt or a
      cleanup that looks at the lock when its time is up. */
  predicate EndsGrant(es: seq<Event>, i: nat, k: nat, id: string)
    requires i < |es| && k < |es|
  {
    && es[i].TryEvent? && Leads(es, k)
    && (es[k] == ReleaseEvent(id, es[i].request.requester)
        || (LooksAt(es[k], id) && TimeIsUp(es[i].request, es[i].now, es[k].now)))
  }

  /** Step i made the latest grant of the lock before step n, and nothing has ended it. */
  ghost predicate Live(es: seq<Event>, i: int, n: nat, id: string)
    requires n <= |es|
  {
    && 0 <= i < n && Granted(es, i, id)
    && forall k :: i < k < n ==> !Granted(es, k, id) && !EndsGrant(es, i, k, id)
  }

  // ---------------------------------------------------------------- one step

  /** An entry of the table as the grant of request r at time `since` leaves it. */
  function EntryOf(r: Request, since: real): LockInfo {
    LockInfo(r.requester, r.exclusive, since, r.ttl)
  }

  lemma StepGranted(t: Table, e: Event, id: string)
    requires Grants(t, e, id)
    ensures id in Step(t, e).locks && Step(t, e).locks[id] == EntryOf(e.request, e.now)
  {
  }

  lemma StepNotGranted(t: Table, e: Event, id: string)
    requires !Grants(t, e, id) && id !in t.locks
    ensures id !in Step(t, e).locks
  {
  }

  /** What frees a lock, in terms of the request it was granted to. */
  predicate Ends(t: Table, e: Event, id: string, r: Request, since: real) {
    t.leads && (e == ReleaseEvent(id, r.requester) || (LooksAt(e, id) && TimeIsUp(r, since, e.now)))
  }

  lemma StepHeld(t: Table, e: Event, id: string, r: Request, since: real)
    requires id in t.locks && t.locks[id] == EntryOf(r, since) && !Grants(t, e, id)
    ensures id !in Step(t, e).locks <==> Ends(t, e, id, r, since)
    ensures id in Step(t, e).locks ==> Step(t, e).locks[id] == EntryOf(r, since)
  {
    HeldUntilFreed(t, e, id);
  }

  // ---------------------------------------------------------------- who holds a lock

  lemma {:induction false} LiveNext(es: seq<Event>, i: int, n: nat, id: string)
    requires n < |es|
    ensures Live(es, i, n + 1, id)
       <==> if Granted(es, n, id) then i == n else Live(es, i, n, id) && !EndsGrant(es, i, n, id)
  {
  }

  ghost predicate Holds(es: seq<Event>, i: int, n: nat, id: string)
    requires n <= |es| && 0 <= i < n && es[i].TryEvent?
  {
    id in At(START, es, n).locks && At(START, es, n).locks[id] == EntryOf(es[i].request, es[i].now)
  }

  /** A lock is in the table exactly when some grant of it is live, as that grant entered it. */
  lemma {:induction false} HeldIff(es: seq<Event>, n: nat, id: string)
    requires n <= |es|
    ensures id in At(START, es, n).locks <==> exists i :: Live(es, i, n, id)
    ensures forall i :: Live(es, i, n, id) ==> Holds(es, i, n, id)
  {
    if n > 0 {
      var m := n - 1;
      HeldIff(es, m, id);
      if Granted(es, m, id) {
        StepGranted(At(START, es, m), es[m], id);
        LiveNext(es, m, m, id);
        assert Live(es, m, n, id);
      } else {
        NotGrantedHeldIff(es, m, n, id);
      }
      forall i | Live(es, i, n, id) ensures Holds(es, i, n, id) {
        LiveNext(es, i, m, id);
        if !Granted(es, m, id) {
          LiveStays(es, i, m, id);
        }
      }
    }
  }

  /** A live grant over one step that grants nothing. */
  lemma {:induction false} LiveStays(es: seq<Event>, i: int, n: nat, id: string)
    requires n < |es| && !Granted(es, n, id) && Live(es, i, n, id) && Holds(es, i, n, id)
    ensures id in At(START, es, n + 1).locks <==> !EndsGrant(es, i, n, id)
    ensures !EndsGrant(es, i, n, id) ==> Holds(es, i, n + 1, id)
  {
    LeadsIs(es, n);
    StepHeld(At(START, es, n), es[n], id, es[i].request, es[i].now);
  }

  lemma {:induction false} NotGrantedHeldIff(es: seq<Event>, n: nat, next: nat, id: string)
    requires n < |es| && next == n + 1 && !Granted(es, n, id)
    requires id in At(START, es, n).locks <==> exists i :: Live(es, i, n, id)
    requires forall i :: Live(es, i, n, id) ==> Holds(es, i, n, id)
    ensures id in At(START, es, next).locks <==> exists i :: Live(es, i, next, id)
  {
    if i :| Live(es, i, n, id) {
      LiveStays(es, i, n, id);
      LiveNext(es, i, n, id);
      forall j | Live(es, j, next, id) ensures j == i {
        LiveNext(es, j, n, id);
        OneLive(es, i, j, n, id);
      }
    } else {
      StepNotGranted(At(START, es, n), es[n], id);
      forall j ensures !Live(es, j, next, id) {
        LiveNext(es, j, n, id);
      }
    }
  }

  lemma OneLive(es: seq<Event>, i: int, j: int, n: nat, id: string)
    requires n <= |es| && Live(es, i, n, id) && Live(es, j, n, id)
    ensures i == j
  {
  }

  // ---------------------------------------------------------------- what attempts and releases come to

  /** An attempt on a lock that no live grant holds is granted on a leader and refused elsewhere. */
  lemma {:induction false} FreeAttempt(es: seq<Event>, n: nat, id: string)
    requires n < |es| && es[n].TryEvent? && es[n].request.lockId == id && !exists i :: Live(es, i, n, id)
    ensures TryOutcome(At(START, es, n), es[n].request, es[n].now)
         == if Leads(es, n) then Attempt.Granted else Refused
  {
    HeldIff(es, n, id);
    LeadsIs(es, n);
  }

  /** An attempt on a held lock comes again at once when the grant's time is up; before that it is granted
      when both are shared, and waits otherwise. */
  lemma {:induction false} HeldAttempt(es: seq<Event>, i: int, n: nat, id: string)
    requires n < |es| && es[n].TryEvent? && es[n].request.lockId == id && Live(es, i, n, id)
    ensures TryOutcome(At(START, es, n), es[n].request, es[n].now)
         == if TimeIsUp(es[i].request, es[i].now, es[n].now) then Again
            else if !es[i].request.exclusive && !es[n].request.exclusive then Attempt.Granted
            else Waits
  {
    HeldIff(es, n, id);
    assert Holds(es, i, n, id);
  }

  /** A release by anyone: refused off the leader, without a live grant and for others than its requester;
      otherwise it wakes the first waiter, unless the owner's list lacks the lock. */
  lemma {:induction false} ReleaseAnswers(es: seq<Event>, n: nat, id: string, owner: NodeId)
    requires n <= |es|
    ensures var t := At(START, es, n);
            var answer := ReleaseOutcome(t, id, owner);
            && (answer == NotLeader <==> !Leads(es, n))
            && (answer == NotFound <==> Leads(es, n) && !exists i :: Live(es, i, n, id))
            && (answer == NotOwner <==>
                  Leads(es, n) && exists i :: Live(es, i, n, id) && es[i].request.requester != owner)
            && (answer.Released? && ListOf(t.queue, id) != [] ==> answer.woken == Some(ListOf(t.queue, id)[0]))
            && (answer.Released? && ListOf(t.queue, id) == [] ==> answer.woken == None)
  {
    HeldIff(es, n, id);
    LeadsIs(es, n);
    if i :| Live(es, i, n, id) {
      assert Holds(es, i, n, id);
      forall j | Live(es, j, n, id) ensures j == i {
        OneLive(es, i, j, n, id);
      }
    }
  }

  // ---------------------------------------------------------------- exclusive locks

  lemma {:induction false} LiveWhileNotEnded(es: seq<Event>, i: nat, n: nat, id: string)
    requires i < n <= |es| && Granted(es, i, id) && es[i].request.exclusive
    requires forall k :: i < k < n ==> !EndsGrant(es, i, k, id)
    ensures Live(es, i, n, id)
  {
    if n > i + 1 {
      LiveWhileNotEnded(es, i, n - 1, id);
      if Granted(es, n - 1, id) {
        HeldAttempt(es, i, n - 1, id);
        assert false;
      }
    }
  }

  /** An exclusive lock stays its requester's until a step ends the grant, and is free after that step: its
      release by the requester or, with a time to live, a look at it after that time. */
  lemma {:induction false} ExclusiveGrantLasts(es: seq<Event>, i: nat, n: nat, id: string)
    requires i < n < |es| && Granted(es, i, id) && es[i].request.exclusive
    requires forall k :: i < k < n ==> !EndsGrant(es, i, k, id)
    ensures var r := es[i].request;
            && id in At(START, es, n).locks
            && At(START, es, n).locks[id] == LockInfo(r.requester, true, es[i].now, r.ttl)
            && !Granted(es, n, id)
            && (id in At(START, es, n + 1).locks <==> !EndsGrant(es, i, n, id))
  {
    LiveWhileNotEnded(es, i, n, id);
    HeldIff(es, n, id);
    assert Holds(es, i, n, id);
    if es[n].TryEvent? && es[n].request.lockId == id {
      HeldAttempt(es, i, n, id);
    }
    LiveStays(es, i, n, id);
  }

  /** Between an exclusive grant and the next grant of the lock its requester releases it or its time is up. */
  lemma {:induction false} NextGrantAfterEnd(es: seq<Event>, i: nat, j: nat, id: string) returns (k: nat)
    requires i < j < |es| && Granted(es, i, id) && es[i].request.exclusive && Granted(es, j, id)
    ensures i < k < j && Leads(es, k)
    ensures es[k] == ReleaseEvent(id, es[i].request.requester)
         || (LooksAt(es[k], id) && es[i].request.ttl.Some? && es[k].now - es[i].now > es[i].request.ttl.value)
  {
    k := i + 1;
    while k < j && !EndsGrant(es, i, k, id)
      invariant i < k <= j
      invariant forall m :: i < m < k ==> !EndsGrant(es, i, m, id)
    {
      k := k + 1;
    }
    if k == j {
      ExclusiveGrantLasts(es, i, j, id);
      assert false;
    }
  }

  // ---------------------------------------------------------------- the log

  /** The commands on lock id that steps before n write: an acquire for each grant of a free lock, a release
      for each end of a live grant, in the name of its requester. */
  ghost function Written(es: seq<Event>, n: nat, id: string): seq<Command>
    requires n <= |es|
  {
    if n == 0 then [] else Written(es, n - 1, id) + WrittenAt(es, n - 1, id)
  }

  ghost function WrittenAt(es: seq<Event>, n: nat, id: string): seq<Command>
    requires n < |es|
  {
    if i :| Live(es, i, n, id) then
      if EndsGrant(es, i, n, id) then [ReleaseCmd(id, es[i].request.requester)] else []
    else if Granted(es, n, id) then [AcquireCmd(id, es[n].request.requester, es[n].request.exclusive)]
    else []
  }

  lemma StepWritesFree(t: Table, e: Event, id: string)
    requires id !in t.locks
    ensures OfLock(Step(t, e).commands, id)
         == OfLock(t.commands, id)
            + if Grants(t, e, id) then [AcquireCmd(id, e.request.requester, e.request.exclusive)] else []
  {
    StepAppends(t, e, id);
  }

  lemma StepWritesHeld(t: Table, e: Event, id: string, r: Request, since: real)
    requires id in t.locks && t.locks[id] == EntryOf(r, since)
    ensures OfLock(Step(t, e).commands, id)
         == OfLock(t.commands, id) + if Ends(t, e, id, r, since) then [ReleaseCmd(id, r.requester)] else []
  {
    StepAppends(t, e, id);
    HeldUntilFreed(t, e, id);
  }

  /** A step appends the command that its effect on the lock calls for. */
  lemma StepAppends(t: Table, e: Event, id: string)
    ensures OfLock(Step(t, e).commands, id)
         == OfLock(t.commands, id)
            + if id !in t.locks && Grants(t, e, id) then [AcquireCmd(id, e.request.requester, e.request.exclusive)]
              else if id in t.locks && Frees(t, e, id) then [ReleaseCmd(id, t.locks[id].owner)]
              else []
  {
    if e.TryEvent? {
      TryAppends(t, e.request, e.now, id);
    } else if e.ReleaseEvent? {
      ReleaseAppends(t, e.lockId, e.owner, id);
    } else if e.ExpireEvent? {
      ExpireAppends(t, e.expiring, e.now, id);
    } else if e.OtherEvent? {
      OfLockMore(t.commands, OtherCmd(e.name), id);
    }
  }

  lemma ExpireAppends(t: Table, l: string, now: real, id: string)
    ensures OfLock(Expire(t, l, now).commands, id)
         == OfLock(t.commands, id)
            + if l == id && id in t.locks && Expired(t.locks[id], now) && t.leads
              then [ReleaseCmd(id, t.locks[id].owner)] else []
  {
    if l in t.locks {
      ReleaseAppends(t, l, t.locks[l].owner, id);
    }
  }

  lemma TryAppends(t: Table, r: Request, now: real, id: string)
    ensures OfLock(Try(t, r, now).commands, id)
         == OfLock(t.commands, id)
            + if r.lockId != id then []
              else if id !in t.locks && t.leads then [AcquireCmd(id, r.requester, r.exclusive)]
              else if TryOutcome(t, r, now) == Again && t.leads then [ReleaseCmd(id, t.locks[id].owner)]
              else []
  {
    if TryOutcome(t, r, now) == Again {
      ReleaseAppends(t, r.lockId, t.locks[r.lockId].owner, id);
    } else {
      OfLockMore(t.commands, AcquireCmd(r.lockId, r.requester, r.exclusive), id);
    }
  }

  lemma ReleaseAppends(t: Table, l: string, owner: NodeId, id: string)
    ensures OfLock(Release(t, l, owner).commands, id)
         == OfLock(t.commands, id) + if l == id && TakesEffect(t, l, owner) then [ReleaseCmd(l, owner)] else []
  {
    OfLockMore(t.commands, ReleaseCmd(l, owner), id);
  }

  /** The commands on lock id in the log before step n. */
  function Logged(es: seq<Event>, n: nat, id: string): seq<Command>
    requires n <= |es|
  {
    OfLock(At(START, es, n).commands, id)
  }

  lemma {:induction false} StepWrites(es: seq<Event>, n: nat, id: string)
    requires n < |es|
    ensures Logged(es, n + 1, id) == Logged(es, n, id) + WrittenAt(es, n, id)
  {
    HeldIff(es, n, id);
    LeadsIs(es, n);
    var t, e := At(START, es, n), es[n];
    if i :| Live(es, i, n, id) {
      assert Holds(es, i, n, id);
      forall j | Live(es, j, n, id) ensures j == i {
        OneLive(es, i, j, n, id);
      }
      StepWritesHeld(t, e, id, es[i].request, es[i].now);
    } else {
      StepWritesFree(t, e, id);
    }
  }

  /** The log holds exactly these commands on the lock, in this order. */
  lemma {:induction false} LogIsHistory(es: seq<Event>, n: nat, id: string)
    requires n <= |es|
    ensures Logged(es, n, id) == Written(es, n, id)
  {
    if n > 0 {
      LogIsHistory(es, n - 1, id);
      StepWrites(es, n - 1, id);
    }
  }

  // ---------------------------------------------------------------- waking

  lemma StepWakes(t: Table, e: Event, id: string)
    requires Frees(t, e, id) && !ListLacks(t, id, Releasing(t, e, id).value) && ListOf(t.queue, id) != []
    ensures WokenAt(t, e, id) == [ListOf(t.queue, id)[0]] && WaitsAt(t, e, id) == []
  {
  }

  /** A step that frees a lock while someone waits wakes the one who has waited longest, in exclusive runs
      always: of those who ever queued up one more has been woken. */
  lemma {:induction false} EndWakesOldest(es: seq<Event>, i: int, n: nat, id: string)
    requires n < |es| && OnlyExclusive(es) && Live(es, i, n, id) && EndsGrant(es, i, n, id)
    requires |Woken(START, es, n, id)| < |Waited(START, es, n, id)|
    ensures Woken(START, es, n + 1, id) == Waited(START, es, n, id)[..|Woken(START, es, n, id)| + 1]
  {
    var t := At(START, es, n);
    HeldIff(es, n, id);
    assert Holds(es, i, n, id);
    LeadsIs(es, n);
    ExclusiveRunsIndexed(es, n);
    assert ReleaseOutcome(t, id, es[i].request.requester) != NotInList;
    WokenInOrder(es, n, id);
    StepWakes(t, es[n], id);
  }
}
