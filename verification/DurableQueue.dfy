/** The message queues of one node: in-memory queues, the persistence log and the list of
    acknowledged ids, and what they guarantee across crashes and recoveries. */
module DurableQueues {
  import opened Prelude
  import opened RaftNodes

  /** A payload: a string, or another object of which only its string form matters here. */
  datatype Content = Text(text: string) | Object(repr: string)

  function Str(c: Content): string {
    match c
    case Text(t) => t
    case Object(r) => r
  }

  datatype Message = Message(id: string, content: Content, producer: NodeId, timestamp: real, persisted: bool)

  datatype Record = Record(id: string, content: string, timestamp: real, producer: NodeId)

  function RecordOf(m: Message): Record {
    Record(m.id, Str(m.content), m.timestamp, m.producer)
  }

  function Restored(r: Record): Message {
    Message(r.id, Text(r.content), r.producer, r.timestamp, true)
  }

  function MessageId(producer: NodeId, ms: nat): string {
    Join(producer, ms)
  }

  // ---------------------------------------------------------------- one queue

  /** What one queue name stands for: its messages, its log and its acknowledged ids. */
  datatype Box = Box(queue: seq<Message>, log: seq<Record>, acked: seq<string>)

  function Put(b: Box, m: Message, persist: bool): Box {
    b.(queue := b.queue + [m], log := if persist then b.log + [RecordOf(m)] else b.log)
  }

  function TakeFirst(b: Box): Box {
    if b.queue == [] then b
    else b.(queue := b.queue[1..], acked := b.acked + [b.queue[0].id])
  }

  /** The logged messages whose id is not acknowledged. */
  function Unacked(log: seq<Record>, acked: seq<string>): seq<Message> {
    if log == [] then []
    else
      var r := log[|log| - 1];
      Unacked(log[..|log| - 1], acked) + if r.id in acked then [] else [Restored(r)]
  }

  function Recover(b: Box): Box {
    b.(queue := b.queue + Unacked(b.log, b.acked))
  }

  /** A crash loses what is in memory; the log and the acknowledgements are kept. */
  function Crash(b: Box): Box {
    b.(queue := [])
  }

  datatype Event = PutEvent(message: Message, persist: bool) | TakeEvent | RecoverEvent | CrashEvent

  /** A queue with its history: what was produced, what entered the queue, and what was delivered. */
  datatype History = History(box: Box, produced: seq<Message>, entered: seq<Message>, delivered: seq<Message>)

  const NOTHING := History(Box([], [], []), [], [], [])

  function Step(h: History, e: Event): History {
    match e
    case PutEvent(m, persist) =>
      h.(box := Put(h.box, m, persist), produced := h.produced + [m], entered := h.entered + [m])
    case TakeEvent =>
      h.(box := TakeFirst(h.box), delivered := h.delivered + if h.box.queue == [] then [] else [h.box.queue[0]])
    case RecoverEvent =>
      h.(box := Recover(h.box), entered := h.entered + Unacked(h.box.log, h.box.acked))
    case CrashEvent => h.(box := Crash(h.box))
  }

  function Run(es: seq<Event>): History {
    if es == [] then NOTHING else Step(Run(es[..|es| - 1]), es[|es| - 1])
  }

  // ---------------------------------------------------------------- first in, first out

  lemma StepInOrder(h: History, e: Event)
    requires h.delivered + h.box.queue == h.entered && !e.CrashEvent?
    ensures Step(h, e).delivered + Step(h, e).box.queue == Step(h, e).entered
  {
    var d, q := h.delivered, h.box.queue;
    match e
    case PutEvent(m, _) => assert d + (q + [m]) == (d + q) + [m];
    case TakeEvent =>
      if q == [] {
        assert d + [] == d;
      } else {
        assert d + q == (d + [q[0]]) + q[1..];
      }
    case RecoverEvent =>
      var back := Unacked(h.box.log, h.box.acked);
      assert d + (q + back) == (d + q) + back;
  }

  /** In crash-free runs what was delivered, followed by what waits, is what entered, in order. */
  lemma {:induction false} FirstInFirstOut(es: seq<Event>)
    requires CrashEvent !in es
    ensures Run(es).delivered + Run(es).box.queue == Run(es).entered
  {
    if es != [] {
      FirstInFirstOut(es[..|es| - 1]);
      StepInOrder(Run(es[..|es| - 1]), es[|es| - 1]);
    }
  }

  // ---------------------------------------------------------------- delivery across crashes

  function Ids(ms: seq<Message>): seq<string> {
    seq(|ms|, i requires 0 <= i < |ms| => ms[i].id)
  }

  function Records(ms: seq<Message>): seq<Record> {
    seq(|ms|, i requires 0 <= i < |ms| => RecordOf(ms[i]))
  }

  /** The same message, up to the string form of its content. */
  predicate Same(m: Message, n: Message) {
    RecordOf(m) == RecordOf(n)
  }

  ghost predicate Holds(ms: seq<Message>, m: Message) {
    exists i :: 0 <= i < |ms| && Same(ms[i], m)
  }

  /** Every message of a run was logged. */
  ghost predicate AllPersist(es: seq<Event>) {
    forall i :: 0 <= i < |es| && es[i].PutEvent? ==> es[i].persist
  }

  /** Nothing is logged, waits or was delivered that was not produced; the ids of what was delivered are
      acknowledged. */
  ghost predicate Faithful(h: History) {
    && h.box.acked == Ids(h.delivered)
    && (forall i :: 0 <= i < |h.box.log| ==> h.box.log[i] in Records(h.produced))
    && (forall i :: 0 <= i < |h.box.queue| ==> Holds(h.produced, h.box.queue[i]))
    && (forall i :: 0 <= i < |h.delivered| ==> Holds(h.produced, h.delivered[i]))
  }

  /** Everything produced is in the log. */
  ghost predicate Logged(h: History) {
    h.box.log == Records(h.produced)
  }

  /** A message is restored exactly when its record is in the log and its id is not acknowledged. */
  lemma {:induction false} UnackedMembers(log: seq<Record>, acked: seq<string>)
    ensures forall m :: m in Unacked(log, acked) <==> RecordOf(m) in log && m.id !in acked && m == Restored(RecordOf(m))
  {
    if log != [] {
      UnackedMembers(log[..|log| - 1], acked);
      assert log == log[..|log| - 1] + [log[|log| - 1]];
    }
  }

  lemma RecordsHold(ms: seq<Message>, m: Message)
    ensures RecordOf(m) in Records(ms) <==> Holds(ms, m)
  {
    if Holds(ms, m) {
      var i :| 0 <= i < |ms| && Same(ms[i], m);
      assert Records(ms)[i] == RecordOf(m);
    }
  }

  lemma {:induction false} StepFaithful(h: History, e: Event)
    requires Faithful(h)
    ensures Faithful(Step(h, e))
  {
    var k := Step(h, e);
    forall i | 0 <= i < |k.box.queue| ensures Holds(k.produced, k.box.queue[i]) {
      var x := k.box.queue[i];
      if e.RecoverEvent? && i >= |h.box.queue| {
        UnackedMembers(h.box.log, h.box.acked);
        assert x in Unacked(h.box.log, h.box.acked);
        RecordsHold(h.produced, x);
      } else if e.PutEvent? && i == |h.box.queue| {
        assert Same(k.produced[|h.produced|], x);
      } else {
        var y := h.box.queue[if e.TakeEvent? && h.box.queue != [] then i + 1 else i];
        HoldsMore(h.produced, k.produced, y);
      }
    }
    forall i | 0 <= i < |k.delivered| ensures Holds(k.produced, k.delivered[i]) {
      if i < |h.delivered| {
        HoldsMore(h.produced, k.produced, h.delivered[i]);
      }
    }
    StepLogsProduced(h, e);
  }

  lemma {:induction false} StepLogsProduced(h: History, e: Event)
    requires forall i :: 0 <= i < |h.box.log| ==> h.box.log[i] in Records(h.produced)
    ensures var k := Step(h, e);
            forall i :: 0 <= i < |k.box.log| ==> k.box.log[i] in Records(k.produced)
  {
    if e.PutEvent? {
      RecordsConcat(h.produced, [e.message]);
      assert Records([e.message]) == [RecordOf(e.message)];
    }
  }

  lemma HoldsMore(ms: seq<Message>, more: seq<Message>, m: Message)
    requires Holds(ms, m) && ms <= more
    ensures Holds(more, m)
  {
    var i :| 0 <= i < |ms| && Same(ms[i], m);
    assert Same(more[i], m);
  }

  /** In every run, whether messages are logged or not, nothing is delivered or waits that was not
      produced. */
  lemma {:induction false} RunFaithful(es: seq<Event>)
    ensures Faithful(Run(es))
  {
    if es != [] {
      RunFaithful(es[..|es| - 1]);
      StepFaithful(Run(es[..|es| - 1]), es[|es| - 1]);
    }
  }

  lemma {:induction false} RunLogged(es: seq<Event>)
    requires AllPersist(es)
    ensures Logged(Run(es))
  {
    if es != [] {
      var front := es[..|es| - 1];
      assert AllPersist(front) by {
        assert forall i :: 0 <= i < |front| ==> front[i] == es[i];
      }
      RunLogged(front);
    }
  }

  // ---------------------------------------------------------------- no message is lost

  /** No message is lost: of each record at least as many copies were delivered or wait as were produced. */
  ghost predicate NothingLost(h: History) {
    multiset(Records(h.produced)) <= multiset(Records(h.delivered + h.box.queue))
  }

  /** Of a message whose id is acknowledged no copy is missing. */
  ghost predicate AckedComplete(h: History) {
    forall m :: m in h.produced && m.id in h.box.acked ==>
      multiset(Records(h.produced))[RecordOf(m)] <= multiset(Records(h.delivered + h.box.queue))[RecordOf(m)]
  }

  lemma {:induction false} RecordsConcat(a: seq<Message>, b: seq<Message>)
    ensures Records(a + b) == Records(a) + Records(b)
  {
  }

  /** A recovery puts back every copy of the records whose id is not acknowledged, and no other. */
  lemma {:induction false} UnackedCount(log: seq<Record>, acked: seq<string>, r: Record)
    ensures multiset(Records(Unacked(log, acked)))[r] == if r.id in acked then 0 else multiset(log)[r]
  {
    if log != [] {
      var front, x := log[..|log| - 1], log[|log| - 1];
      assert log == front + [x];
      UnackedCount(front, acked, r);
      UnackedMore(front, x, acked);
      if x.id !in acked {
        RecordsConcat(Unacked(front, acked), [Restored(x)]);
        assert Records([Restored(x)]) == [x];
      }
    }
  }

  /** What counts as delivered or waiting after a recovery. */
  lemma {:induction false} RecoveredCount(h: History, r: Record)
    requires Logged(h)
    ensures multiset(Records(Step(h, RecoverEvent).delivered + Step(h, RecoverEvent).box.queue))[r]
         == multiset(Records(h.delivered + h.box.queue))[r]
            + if r.id in h.box.acked then 0 else multiset(Records(h.produced))[r]
  {
    var back := Unacked(h.box.log, h.box.acked);
    UnackedCount(h.box.log, h.box.acked, r);
    RecordsConcat(h.delivered + h.box.queue, back);
    assert h.delivered + (h.box.queue + back) == (h.delivered + h.box.queue) + back;
  }

  /** A recovery makes up for all losses if and only if no copy of an acknowledged message is missing. */
  lemma {:induction false} RecoverRestoresIff(h: History)
    requires Logged(h)
    ensures NothingLost(Step(h, RecoverEvent)) <==> AckedComplete(h)
  {
    var k := Step(h, RecoverEvent);
    var wanted, had, has := multiset(Records(h.produced)), multiset(Records(h.delivered + h.box.queue)),
                            multiset(Records(k.delivered + k.box.queue));
    if AckedComplete(h) {
      forall r | r in wanted ensures wanted[r] <= has[r] {
        RecoveredCount(h, r);
        var i :| 0 <= i < |h.produced| && Records(h.produced)[i] == r;
        assert h.produced[i] in h.produced;
      }
    }
    if NothingLost(k) {
      forall m | m in h.produced && m.id in h.box.acked ensures wanted[RecordOf(m)] <= had[RecordOf(m)] {
        RecoveredCount(h, RecordOf(m));
      }
    }
  }

  lemma {:induction false} DistinctRecordOnce(ms: seq<Message>, r: Record)
    requires NoDup(Ids(ms))
    ensures multiset(Records(ms))[r] <= 1
  {
    if ms != [] {
      var front, m := ms[..|ms| - 1], ms[|ms| - 1];
      assert ms == front + [m];
      forall i, j | 0 <= i < j < |front| ensures Ids(front)[i] != Ids(front)[j] {
        assert Ids(front)[i] == Ids(ms)[i] && Ids(front)[j] == Ids(ms)[j];
      }
      DistinctRecordOnce(front, r);
      RecordsConcat(front, [m]);
      assert Records([m]) == [RecordOf(m)];
      forall i | 0 <= i < |front| ensures Records(front)[i] != RecordOf(m) {
        assert Ids(ms)[i] != Ids(ms)[|front|];
      }
    }
  }

  lemma {:induction false} DistinctAckedComplete(h: History)
    requires Faithful(h) && NoDup(Ids(h.produced))
    ensures AckedComplete(h)
  {
    var all := h.delivered + h.box.queue;
    forall m | m in h.produced && m.id in h.box.acked
      ensures multiset(Records(h.produced))[RecordOf(m)] <= multiset(Records(all))[RecordOf(m)]
    {
      DistinctRecordOnce(h.produced, RecordOf(m));
      var i :| 0 <= i < |h.delivered| && h.delivered[i].id == m.id;
      assert Holds(h.produced, h.delivered[i]);
      var j :| 0 <= j < |h.produced| && Same(h.produced[j], h.delivered[i]);
      var n :| 0 <= n < |h.produced| && h.produced[n] == m;
      assert Ids(h.produced)[j] == Ids(h.produced)[n];
      assert Records(all)[i] == RecordOf(m);
    }
  }

  /** No crash since the last recovery, or since the start. */
  predicate Recovered(es: seq<Event>) {
    es == [] || es[|es| - 1].RecoverEvent? || (!es[|es| - 1].CrashEvent? && Recovered(es[..|es| - 1]))
  }

  /** The messages produced before the last event still have distinct ids. */
  lemma {:induction false} FrontIdsDistinct(es: seq<Event>)
    requires es != [] && NoDup(Ids(Run(es).produced))
    ensures NoDup(Ids(Run(es[..|es| - 1]).produced))
  {
    var h, k := Run(es[..|es| - 1]), Run(es);
    assert h.produced <= k.produced;
    forall i, j | 0 <= i < j < |h.produced| ensures Ids(h.produced)[i] != Ids(h.produced)[j] {
      assert Ids(h.produced)[i] == Ids(k.produced)[i] && Ids(h.produced)[j] == Ids(k.produced)[j];
    }
  }

  /** At-least-once delivery: over any run of productions, deliveries, crashes and recoveries with
      persistence on and distinct ids, no message is lost once the queue has been recovered. */
  lemma {:induction false} AtLeastOnce(es: seq<Event>)
    requires AllPersist(es) && NoDup(Ids(Run(es).produced)) && Recovered(es)
    ensures NothingLost(Run(es))
  {
    if es != [] {
      var front, e := es[..|es| - 1], es[|es| - 1];
      assert AllPersist(front) by {
        assert forall i :: 0 <= i < |front| ==> front[i] == es[i];
      }
      FrontIdsDistinct(es);
      if e.RecoverEvent? {
        RunFaithful(front);
        RunLogged(front);
        DistinctAckedComplete(Run(front));
        RecoverRestoresIff(Run(front));
      } else {
        AtLeastOnce(front);
        StepLosesNothing(Run(front), e);
      }
    }
  }

  lemma StepLosesNothing(h: History, e: Event)
    requires NothingLost(h) && (e.PutEvent? || e.TakeEvent?)
    ensures NothingLost(Step(h, e))
  {
    var before := h.delivered + h.box.queue;
    match e
    case PutEvent(m, _) =>
      RecordsConcat(h.produced, [m]);
      RecordsConcat(before, [m]);
      assert h.delivered + (h.box.queue + [m]) == before + [m];
    case TakeEvent =>
      if h.box.queue != [] {
        assert (h.delivered + [h.box.queue[0]]) + h.box.queue[1..] == before;
      } else {
        assert (h.delivered + []) + h.box.queue == before;
      }
  }

  lemma {:induction false} RunMore(es: seq<Event>, e: Event)
    ensures Run(es + [e]) == Step(Run(es), e)
  {
    assert (es + [e])[..|es|] == es;
  }

  lemma {:induction false} AllPersistMore(es: seq<Event>, e: Event)
    requires AllPersist(es) && (e.PutEvent? ==> e.persist)
    ensures AllPersist(es + [e])
  {
  }

  lemma {:induction false} PutAll(ms: seq<Message>) returns (es: seq<Event>)
    ensures AllPersist(es) && Run(es) == Produced(ms)
  {
    if ms == [] {
      es := [];
    } else {
      var front, m := ms[..|ms| - 1], ms[|ms| - 1];
      var start := PutAll(front);
      RunMore(start, PutEvent(m, true));
      AllPersistMore(start, PutEvent(m, true));
      es := start + [PutEvent(m, true)];
      assert front + [m] == ms;
      ProduceMore(front, m);
    }
  }

  /** The history of a queue that took in `ms`, and no more. */
  function Produced(ms: seq<Message>): History {
    History(Box(ms, Records(ms), []), ms, ms, [])
  }

  lemma ProduceMore(ms: seq<Message>, m: Message)
    ensures Step(Produced(ms), PutEvent(m, true)) == Produced(ms + [m])
  {
    RecordsConcat(ms, [m]);
    assert Records([m]) == [RecordOf(m)];
  }

  /** The history of a queue that took in `ms` and gave away the first n of them. */
  function Taken(ms: seq<Message>, n: nat): History
    requires n <= |ms|
  {
    History(Box(ms[n..], Records(ms), Ids(ms[..n])), ms, ms, ms[..n])
  }

  lemma TakenNone(ms: seq<Message>)
    ensures Taken(ms, 0) == Produced(ms)
  {
  }

  lemma {:induction false} TakeMore(ms: seq<Message>, n: nat)
    requires n < |ms|
    ensures Step(Taken(ms, n), TakeEvent) == Taken(ms, n + 1)
  {
    assert ms[n..][1..] == ms[n + 1..] && ms[..n + 1] == ms[..n] + [ms[n]];
    assert Ids(ms[..n + 1]) == Ids(ms[..n]) + [ms[n].id];
  }

  lemma {:induction false} PutAllTakeSome(ms: seq<Message>, n: nat) returns (es: seq<Event>)
    requires n <= |ms|
    ensures AllPersist(es) && Run(es) == Taken(ms, n)
  {
    if n == 0 {
      es := PutAll(ms);
      TakenNone(ms);
    } else {
      var start := PutAllTakeSome(ms, n - 1);
      TakeMore(ms, n - 1);
      RunMore(start, TakeEvent);
      AllPersistMore(start, TakeEvent);
      es := start + [TakeEvent];
    }
  }

  lemma {:induction false} CrashAndRecover(start: seq<Event>, h: History) returns (es: seq<Event>)
    requires AllPersist(start) && Run(start) == h
    ensures AllPersist(es) && Recovered(es) && Run(es) == Step(Step(h, CrashEvent), RecoverEvent)
  {
    RunMore(start, CrashEvent);
    AllPersistMore(start, CrashEvent);
    RunMore(start + [CrashEvent], RecoverEvent);
    AllPersistMore(start + [CrashEvent], RecoverEvent);
    es := start + [CrashEvent] + [RecoverEvent];
  }

  /** When two messages share an id, some run loses the second for good: deliver the first, crash and
      recover. */
  lemma {:induction false} ClashLoses(ms: seq<Message>, i: nat, j: nat) returns (es: seq<Event>)
    requires i < j < |ms| && ms[i].id == ms[j].id
    ensures AllPersist(es) && Run(es).produced == ms && Recovered(es) && !NothingLost(Run(es))
  {
    ClashStays(ms, i, j);
    var start := PutAllTakeSome(ms, i + 1);
    es := CrashAndRecover(start, Taken(ms, i + 1));
  }

  lemma {:induction false} ClashStays(ms: seq<Message>, i: nat, j: nat)
    requires i < j < |ms| && ms[i].id == ms[j].id
    ensures var k := Step(Step(Taken(ms, i + 1), CrashEvent), RecoverEvent);
            k.produced == ms && !NothingLost(k)
  {
    ClashIncomplete(ms, i, j);
    RecoverRestoresIff(Step(Taken(ms, i + 1), CrashEvent));
  }

  lemma {:induction false} ClashIncomplete(ms: seq<Message>, i: nat, j: nat)
    requires i < j < |ms| && ms[i].id == ms[j].id
    ensures !AckedComplete(Step(Taken(ms, i + 1), CrashEvent))
  {
    var h := Step(Taken(ms, i + 1), CrashEvent);
    var r := RecordOf(ms[j]);
    assert h.delivered + h.box.queue == ms[..i + 1];
    assert h.box.acked[i] == ms[j].id && ms[j] in h.produced;
    CopyBehind(ms, i + 1, j);
  }

  lemma {:induction false} CopyBehind(ms: seq<Message>, n: nat, j: nat)
    requires n <= j < |ms|
    ensures multiset(Records(ms))[RecordOf(ms[j])] > multiset(Records(ms[..n]))[RecordOf(ms[j])]
  {
    var front, rest := ms[..n], ms[n..];
    assert ms == front + rest;
    RecordsConcat(front, rest);
    assert Records(rest)[j - n] == RecordOf(ms[j]);
  }

  /** Exactly when a list of messages cannot lose any in any run: when no two share an id. Ids are made
      of the producer and the millisecond, so two messages of one producer can share one. */
  lemma {:induction false} AtLeastOnceIff(ms: seq<Message>)
    ensures (forall es :: AllPersist(es) && Run(es).produced == ms && Recovered(es) ==> NothingLost(Run(es)))
            <==> NoDup(Ids(ms))
  {
    if NoDup(Ids(ms)) {
      forall es | AllPersist(es) && Run(es).produced == ms && Recovered(es) ensures NothingLost(Run(es)) {
        AtLeastOnce(es);
      }
    } else {
      var i, j :| 0 <= i < j < |Ids(ms)| && Ids(ms)[i] == Ids(ms)[j];
      var es := ClashLoses(ms, i, j);
    }
  }

  /** An id tells its producer and the clock reading it was made at. */
  lemma MessageIdTells(a: NodeId, i: nat, b: NodeId, j: nat)
    requires MessageId(a, i) == MessageId(b, j)
    ensures a == b && i == j
  {
    JoinTells(a, i, b, j);
  }

  /** Message i was enqueued by its producer at clock reading `readings[i]`. */
  ghost predicate Stamped(ms: seq<Message>, readings: seq<nat>) {
    |readings| == |ms| && forall i :: 0 <= i < |ms| ==> ms[i].id == MessageId(ms[i].producer, readings[i])
  }

  /** The same in terms of the clock: no message can be lost in any run if and only if no producer enqueues
      twice within a millisecond. */
  lemma {:induction false} AtLeastOnceByClock(ms: seq<Message>, readings: seq<nat>)
    requires Stamped(ms, readings)
    ensures (forall es :: AllPersist(es) && Run(es).produced == ms && Recovered(es) ==> NothingLost(Run(es)))
            <==> forall i, j :: 0 <= i < j < |ms| ==> ms[i].producer != ms[j].producer || readings[i] != readings[j]
  {
    AtLeastOnceIff(ms);
    forall i, j | 0 <= i < j < |ms|
      ensures Ids(ms)[i] == Ids(ms)[j] <==> ms[i].producer == ms[j].producer && readings[i] == readings[j]
    {
      if ms[i].id == ms[j].id {
        MessageIdTells(ms[i].producer, readings[i], ms[j].producer, readings[j]);
      }
    }
  }

  // ---------------------------------------------------------------- what is logged, and what comes back

  /** The messages that a run enqueues, and those of them that it asks to persist. */
  function Enqueued(es: seq<Event>, all: bool): seq<Message> {
    if es == [] then []
    else
      var e := es[|es| - 1];
      Enqueued(es[..|es| - 1], all) + if e.PutEvent? && (all || e.persist) then [e.message] else []
  }

  /** The log holds the records of exactly the messages enqueued to persist, in order, in every run. */
  lemma {:induction false} LogIsPersisted(es: seq<Event>)
    ensures Run(es).produced == Enqueued(es, true)
    ensures Run(es).box.log == Records(Enqueued(es, false))
  {
    if es != [] {
      var front, e := es[..|es| - 1], es[|es| - 1];
      LogIsPersisted(front);
      if e.PutEvent? {
        RecordsConcat(Enqueued(front, false), [e.message]);
        assert Records([e.message]) == [RecordOf(e.message)];
      }
    }
  }

  /** A recovery puts messages back in the order of the log: `at` lists the positions of the records whose id
      is not acknowledged. */
  lemma {:induction false} UnackedPositions(log: seq<Record>, acked: seq<string>) returns (at: seq<nat>)
    ensures |at| == |Unacked(log, acked)|
    ensures forall i :: 0 <= i < |at| ==> at[i] < |log| && Unacked(log, acked)[i] == Restored(log[at[i]])
    ensures forall i, j :: 0 <= i < j < |at| ==> at[i] < at[j]
    ensures forall p: nat :: p < |log| ==> (p in at <==> log[p].id !in acked)
  {
    if log == [] {
      at := [];
    } else {
      var front, r := log[..|log| - 1], log[|log| - 1];
      var before := UnackedPositions(front, acked);
      at := before + if r.id in acked then [] else [|front|];
      forall p: nat | p < |log| ensures p in at <==> log[p].id !in acked {
        if p == |front| {
          assert p !in before;
        } else {
          assert p in before <==> front[p].id !in acked;
        }
      }
    }
  }

  /** A message that goes through the log comes back as it was, but for the form of its content. */
  lemma ComesBack(m: Message)
    ensures Restored(RecordOf(m)) == m.(content := Text(Str(m.content)), persisted := true)
    ensures m.content.Text? ==> Restored(RecordOf(m)).content == m.content
  {
  }

  // ---------------------------------------------------------------- no duplicates

  /** No id was delivered twice, waits twice, or waits although delivered. */
  ghost predicate NoDuplicates(h: History) {
    NoDup(h.box.acked + Ids(h.box.queue))
  }

  lemma {:induction false} UnackedDistinct(log: seq<Record>, acked: seq<string>)
    requires forall i, j :: 0 <= i < j < |log| ==> log[i].id != log[j].id
    ensures NoDup(Ids(Unacked(log, acked)))
  {
    if log != [] {
      var front := log[..|log| - 1];
      UnackedDistinct(front, acked);
      UnackedMembers(front, acked);
      var back := Unacked(front, acked);
      forall i | 0 <= i < |back| ensures back[i].id != log[|log| - 1].id {
        assert back[i] in back;
        var j :| 0 <= j < |front| && front[j] == RecordOf(back[i]);
        assert log[j].id == back[i].id;
      }
      var r := log[|log| - 1];
      assert Unacked(log, acked) == back + if r.id in acked then [] else [Restored(r)];
      assert forall i :: 0 <= i < |back| ==> Ids(Unacked(log, acked))[i] == Ids(back)[i];
    }
  }

  lemma {:induction false} EmptyRecoversDistinct(h: History)
    requires Logged(h) && NoDup(h.box.acked) && NoDup(Ids(h.produced)) && h.box.queue == []
    ensures NoDuplicates(Step(h, RecoverEvent))
  {
    var log, acked := h.box.log, h.box.acked;
    var back := Unacked(log, acked);
    assert forall i :: 0 <= i < |log| ==> log[i].id == Ids(h.produced)[i];
    UnackedDistinct(log, acked);
    UnackedMembers(log, acked);
    assert Step(h, RecoverEvent).box.queue == back;
    forall i | 0 <= i < |back| ensures back[i].id !in acked {
      assert back[i] in back;
    }
    JoinDistinct(acked, Ids(back));
  }

  lemma JoinDistinct(a: seq<string>, b: seq<string>)
    requires NoDup(a) && NoDup(b) && forall i :: 0 <= i < |b| ==> b[i] !in a
    ensures NoDup(a + b)
  {
  }

  /** The first waiting message waits twice after a recovery. */
  lemma {:induction false} WaitingRecoversTwice(h: History)
    requires Faithful(h) && Logged(h) && h.box.queue != [] && h.box.queue[0].id !in h.box.acked
    ensures !NoDuplicates(Step(h, RecoverEvent))
  {
    var b, m := h.box, h.box.queue[0];
    var back := Unacked(b.log, b.acked);
    assert Holds(h.produced, m);
    RecordsHold(h.produced, m);
    UnackedMembers(b.log, b.acked);
    assert Restored(RecordOf(m)) in back;
    var i :| 0 <= i < |back| && back[i] == Restored(RecordOf(m));
    var all := b.acked + Ids(b.queue + back);
    assert all[|b.acked|] == m.id && all[|b.acked| + |b.queue| + i] == m.id;
  }

  /** A recovery creates no duplicate if and only if the queue is empty when it starts. */
  lemma {:induction false} RecoverDuplicatesIff(h: History)
    requires Faithful(h) && Logged(h) && NoDuplicates(h) && NoDup(Ids(h.produced))
    ensures NoDuplicates(Step(h, RecoverEvent)) <==> h.box.queue == []
  {
    var all := h.box.acked + Ids(h.box.queue);
    if h.box.queue == [] {
      assert all == h.box.acked;
      EmptyRecoversDistinct(h);
    } else {
      assert forall i :: 0 <= i < |h.box.acked| ==> all[i] == h.box.acked[i];
      assert all[|h.box.acked|] == h.box.queue[0].id;
      WaitingRecoversTwice(h);
    }
  }

  /** Recoveries happen only while nothing waits, as right after a crash. */
  predicate RecoversEmpty(es: seq<Event>) {
    es == [] ||
    (RecoversEmpty(es[..|es| - 1])
     && (es[|es| - 1].RecoverEvent? ==> Run(es[..|es| - 1]).box.queue == []))
  }

  lemma {:induction false} OtherStepsNoDuplicates(h: History, e: Event)
    requires Faithful(h) && NoDuplicates(h) && !e.RecoverEvent?
    requires e.PutEvent? ==> e.message.id !in Ids(h.produced)
    ensures NoDuplicates(Step(h, e))
  {
    var b, k := h.box, Step(h, e).box;
    var all := b.acked + Ids(b.queue);
    if e.PutEvent? {
      assert k.acked + Ids(k.queue) == all + [e.message.id];
      forall i | 0 <= i < |all| ensures all[i] != e.message.id {
        var m := if i < |b.acked| then h.delivered[i] else b.queue[i - |b.acked|];
        assert Holds(h.produced, m);
        var j :| 0 <= j < |h.produced| && Same(h.produced[j], m);
        assert Ids(h.produced)[j] == all[i];
      }
    } else if e.TakeEvent? {
      assert k.acked + Ids(k.queue) == all;
    } else {
      assert k.acked + Ids(k.queue) == all[..|b.acked|];
    }
  }

  lemma {:induction false} RunNoDuplicates(es: seq<Event>)
    requires AllPersist(es) && NoDup(Ids(Run(es).produced)) && RecoversEmpty(es)
    ensures NoDuplicates(Run(es))
  {
    if es != [] {
      var front, e := es[..|es| - 1], es[|es| - 1];
      var h := Run(front);
      assert AllPersist(front) by {
        assert forall i :: 0 <= i < |front| ==> front[i] == es[i];
      }
      RunFaithful(front);
      RunLogged(front);
      FrontIdsDistinct(es);
      RunNoDuplicates(front);
      if e.RecoverEvent? {
        RecoverDuplicatesIff(h);
      } else {
        if e.PutEvent? {
          var ids := Ids(Run(es).produced);
          assert ids[|h.produced|] == e.message.id;
          assert forall i :: 0 <= i < |h.produced| ==> ids[i] == Ids(h.produced)[i];
        }
        OtherStepsNoDuplicates(h, e);
      }
    }
  }

  /** Exactly-once delivery: with distinct ids and recoveries only while nothing waits, no message is
      delivered twice, and once recovered every message was delivered or waits. */
  lemma {:induction false} ExactlyOnce(es: seq<Event>)
    requires AllPersist(es) && NoDup(Ids(Run(es).produced)) && RecoversEmpty(es)
    ensures NoDup(Ids(Run(es).delivered))
    ensures Recovered(es) ==> NothingLost(Run(es))
  {
    RunNoDuplicates(es);
    RunFaithful(es);
    var h := Run(es);
    var all := h.box.acked + Ids(h.box.queue);
    assert forall i :: 0 <= i < |h.delivered| ==> all[i] == Ids(h.delivered)[i];
    if Recovered(es) {
      AtLeastOnce(es);
    }
  }

  // ---------------------------------------------------------------- all queues of a node in place

  /** The number of messages waiting in all queues. */
  ghost function Total(queues: map<string, seq<Message>>): nat
    decreases |queues|
  {
    if queues == map[] then 0
    else
      var q :| q in queues;
      |queues[q]| + Total(queues - {q})
  }

  lemma {:induction false} TotalWithout(queues: map<string, seq<Message>>, q: string)
    requires q in queues
    ensures Total(queues) == |queues[q]| + Total(queues - {q})
    decreases |queues|
  {
    var p :| p in queues && Total(queues) == |queues[p]| + Total(queues - {p});
    if p != q {
      TotalWithout(queues - {p}, q);
      TotalWithout(queues - {q}, p);
      assert queues - {p} - {q} == queues - {q} - {p};
    }
  }

  lemma {:induction false} TotalUpdate(queues: map<string, seq<Message>>, q: string, ms: seq<Message>)
    ensures Total(queues[q := ms]) == Total(queues) - |ListOf(queues, q)| + |ms|
  {
    TotalWithout(queues[q := ms], q);
    if q in queues {
      TotalWithout(queues, q);
      assert queues[q := ms] - {q} == queues - {q};
    } else {
      assert queues[q := ms] - {q} == queues;
    }
  }

  lemma {:induction false} UnackedMore(log: seq<Record>, r: Record, acked: seq<string>)
    ensures Unacked(log + [r], acked)
         == if r.id in acked then Unacked(log, acked) else Unacked(log, acked) + [Restored(r)]
  {
    assert (log + [r])[..|log|] == log;
  }

  /** What has been restored before each record. */
  ghost predicate Parts(log: seq<Record>, acked: seq<string>, parts: seq<seq<Message>>) {
    && |parts| == |log| + 1 && parts[0] == []
    && forall i :: 0 <= i < |log| ==>
         parts[i + 1] == parts[i] + if log[i].id in acked then [] else [Restored(log[i])]
  }

  lemma {:induction false} UnackedTable(log: seq<Record>, acked: seq<string>) returns (parts: seq<seq<Message>>)
    ensures Parts(log, acked, parts) && parts[|log|] == Unacked(log, acked)
  {
    if log == [] {
      parts := [[]];
    } else {
      var front := UnackedTable(log[..|log| - 1], acked);
      parts := front + [Unacked(log, acked)];
    }
  }

  lemma AppendedTwice<T>(a: seq<T>, b: seq<T>, c: seq<T>)
    ensures (a + b) + c == a + (b + c)
  {
  }

  /** What a consumer sees: an unknown queue, the end of its time, nothing yet, or a message. */
  datatype Look = NoQueue | TimedOut | Sleeps | Got(message: Message)

  class DistributedQueue {
    const raft: RaftNode
    const enablePersistence: bool
    var queues: map<string, seq<Message>>
    var persistenceLog: map<string, seq<Record>>
    var acknowledged: map<string, seq<string>>
    var messagesEnqueued: nat
    var messagesDequeued: nat
    var messagesFailed: nat
    ghost var messagesRecovered: nat

    ghost function BoxOf(q: string): Box
      reads this
    {
      Box(ListOf(queues, q), ListOf(persistenceLog, q), ListOf(acknowledged, q))
    }

    /** Every message that ever entered a queue was taken or still waits. */
    ghost predicate Valid()
      reads this
    {
      messagesEnqueued + messagesRecovered == messagesDequeued + Total(queues)
    }

    constructor (raft: RaftNode, enablePersistence: bool)
      ensures Valid() && this.raft == raft && this.enablePersistence == enablePersistence
      ensures forall q :: BoxOf(q) == Box([], [], [])
      ensures messagesEnqueued == messagesDequeued == messagesFailed == messagesRecovered == 0
    {
      this.raft, this.enablePersistence := raft, enablePersistence;
      queues, persistenceLog, acknowledged := map[], map[], map[];
      messagesEnqueued, messagesDequeued, messagesFailed, messagesRecovered := 0, 0, 0, 0;
    }

    /** `ms` and `stamp` are the two readings of the clock. A leader also appends to the Raft log, which it
        never refuses, so the failure branch is not reached. */
    method Enqueue(q: string, content: Content, producer: NodeId, persist: bool, ms: nat, stamp: real)
      returns (ok: bool, id: string)
      requires Valid() && raft.Valid()
      modifies this, raft
      ensures Valid() && raft.Valid()
      ensures ok && id == MessageId(producer, ms)
      ensures var m := Message(id, content, producer, stamp, old(raft.role) == Leader);
              BoxOf(q) == Put(old(BoxOf(q)), m, persist && enablePersistence)
      ensures forall p :: p != q ==> BoxOf(p) == old(BoxOf(p))
      ensures raft.State() == if old(raft.role) == Leader then AppendEntry(old(raft.State()), EnqueueCmd(q, id))
                              else old(raft.State())
      ensures messagesEnqueued == old(messagesEnqueued) + 1 && messagesDequeued == old(messagesDequeued)
      ensures messagesFailed == old(messagesFailed) && messagesRecovered == old(messagesRecovered)
    {
      id := MessageId(producer, ms);
      var message := Message(id, content, producer, stamp, false);
      if raft.role == Leader {
        var index := raft.Append(EnqueueCmd(q, id));
        if index.None? {
          assert false;
        }
        message := message.(persisted := true);
      }
      AddLast(q, message);
      messagesEnqueued := messagesEnqueued + 1;
      if persist && enablePersistence {
        PersistMessage(q, message);
      }
      return true, id;
    }

    method Acknowledge(q: string, id: string)
      modifies this`acknowledged
      ensures ListOf(acknowledged, q) == ListOf(old(acknowledged), q) + [id]
      ensures forall p :: p != q ==> ListOf(acknowledged, p) == ListOf(old(acknowledged), p)
    {
      if q !in acknowledged {
        acknowledged := acknowledged[q := []];
      }
      acknowledged := acknowledged[q := acknowledged[q] + [id]];
    }

    method RemoveFirst(q: string) returns (first: Message)
      requires q in queues && queues[q] != []
      modifies this`queues
      ensures first == old(queues)[q][0] && queues == old(queues)[q := old(queues)[q][1..]]
      ensures Total(queues) == Total(old(queues)) - 1
    {
      first := queues[q][0];
      TotalUpdate(queues, q, queues[q][1..]);
      queues := queues[q := queues[q][1..]];
    }

    /** The queue is created when its first message arrives. */
    method AddLast(q: string, message: Message)
      modifies this`queues
      ensures ListOf(queues, q) == ListOf(old(queues), q) + [message]
      ensures forall p :: p != q ==> ListOf(queues, p) == ListOf(old(queues), p)
      ensures Total(queues) == Total(old(queues)) + 1
    {
      TotalUpdate(queues, q, ListOf(queues, q) + [message]);
      if q !in queues {
        queues := queues[q := []];
      }
      queues := queues[q := queues[q] + [message]];
      assert queues == old(queues)[q := ListOf(old(queues), q) + [message]];
    }

    method PersistMessage(q: string, message: Message)
      modifies this`persistenceLog
      ensures BoxOf(q) == old(BoxOf(q)).(log := old(BoxOf(q)).log + [RecordOf(message)])
      ensures forall p :: p != q ==> BoxOf(p) == old(BoxOf(p))
    {
      if q !in persistenceLog {
        persistenceLog := persistenceLog[q := []];
      }
      persistenceLog := persistenceLog[q := persistenceLog[q] + [RecordOf(message)]];
    }

    /** One pass of the polling loop, from a sleep to the end of the call or the next sleep. */
    method TryDequeue(q: string, deadline: real, now: real) returns (look: Look)
      requires Valid()
      modifies this
      ensures Valid()
      ensures look.NoQueue? <==> q !in old(queues)
      ensures q in old(queues) ==>
                look == if now >= deadline then TimedOut
                        else if old(BoxOf(q)).queue == [] then Sleeps
                        else Got(old(BoxOf(q)).queue[0])
      ensures BoxOf(q) == if look.Got? then TakeFirst(old(BoxOf(q))) else old(BoxOf(q))
      ensures forall p :: p != q ==> BoxOf(p) == old(BoxOf(p))
      ensures messagesDequeued == old(messagesDequeued) + if look.Got? then 1 else 0
      ensures messagesEnqueued == old(messagesEnqueued) && messagesRecovered == old(messagesRecovered)
    {
      if q !in queues {
        return NoQueue;
      }
      if now >= deadline {
        return TimedOut;
      }
      if queues[q] == [] {
        return Sleeps;
      }
      var first := RemoveFirst(q);
      Acknowledge(q, first.id);
      messagesDequeued := messagesDequeued + 1;
      return Got(first);
    }

    method RecoverUnacknowledged(q: string) returns (recovered: nat)
      requires Valid()
      modifies this
      ensures Valid()
      ensures BoxOf(q) == Recover(old(BoxOf(q)))
      ensures recovered == |Unacked(old(BoxOf(q)).log, old(BoxOf(q)).acked)|
      ensures forall p :: p != q ==> BoxOf(p) == old(BoxOf(p))
      ensures messagesRecovered == old(messagesRecovered) + recovered
      ensures messagesEnqueued == old(messagesEnqueued) && messagesDequeued == old(messagesDequeued)
    {
      if q !in persistenceLog {
        assert ListOf(queues, q) + [] == ListOf(queues, q);
        return 0;
      }
      recovered := RestoreAll(q, persistenceLog[q]);
    }

    /** The loop over the log of one queue. */
    method RestoreAll(q: string, records: seq<Record>) returns (recovered: nat)
      modifies this`queues, this`messagesRecovered
      ensures recovered == |Unacked(records, ListOf(acknowledged, q))|
      ensures ListOf(queues, q) == ListOf(old(queues), q) + Unacked(records, ListOf(acknowledged, q))
      ensures forall p :: p != q ==> ListOf(queues, p) == ListOf(old(queues), p)
      ensures messagesRecovered == old(messagesRecovered) + recovered
      ensures Total(queues) == Total(old(queues)) + recovered
    {
      ghost var parts := UnackedTable(records, ListOf(acknowledged, q));
      recovered := RestoreEach(q, records, parts);
    }

    method RestoreEach(q: string, records: seq<Record>, ghost parts: seq<seq<Message>>) returns (recovered: nat)
      requires Parts(records, ListOf(acknowledged, q), parts)
      modifies this`queues, this`messagesRecovered
      ensures recovered == |parts[|records|]|
      ensures ListOf(queues, q) == ListOf(old(queues), q) + parts[|records|]
      ensures forall p :: p != q ==> ListOf(queues, p) == ListOf(old(queues), p)
      ensures messagesRecovered == old(messagesRecovered) + recovered
      ensures Total(queues) == Total(old(queues)) + recovered
    {
      recovered := 0;
      var i := 0;
      while i < |records|
        invariant 0 <= i <= |records|
        invariant recovered == |parts[i]|
        invariant ListOf(queues, q) == ListOf(old(queues), q) + parts[i]
        invariant forall p :: p != q ==> ListOf(queues, p) == ListOf(old(queues), p)
        invariant messagesRecovered == old(messagesRecovered) + recovered
        invariant Total(queues) == Total(old(queues)) + recovered
      {
        var restored := RestoreOne(q, records[i]);
        AppendedTwice(ListOf(old(queues), q), parts[i], if restored then [Restored(records[i])] else []);
        recovered := recovered + if restored then 1 else 0;
        i := i + 1;
      }
    }

    method RestoreOne(q: string, r: Record) returns (restored: bool)
      modifies this`queues, this`messagesRecovered
      ensures restored <==> r.id !in ListOf(acknowledged, q)
      ensures ListOf(queues, q) == ListOf(old(queues), q) + if restored then [Restored(r)] else []
      ensures forall p :: p != q ==> ListOf(queues, p) == ListOf(old(queues), p)
      ensures messagesRecovered == old(messagesRecovered) + if restored then 1 else 0
      ensures Total(queues) == Total(old(queues)) + if restored then 1 else 0
    {
      if q !in acknowledged || r.id !in acknowledged[q] {
        AddLast(q, Restored(r));
        messagesRecovered := messagesRecovered + 1;
        return true;
      }
      return false;
    }
  }
}
