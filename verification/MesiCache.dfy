/** The cache of one node: MESI line states over a least-recently-used ordered map. */
module MesiCaches {
  import opened Prelude

  /** None is Python's None, which a cache may hold like any other value. */
  type Value = Option<string>

  datatype LineState = Modified | Exclusive | Shared | Invalid

  datatype Line = Line(value: Value, state: LineState, owner: Option<NodeId>, sharedBy: seq<NodeId>, accessCount: nat)

  /** The ordered map: its keys, least recently used first, and its lines. */
  datatype Cache = Cache(order: seq<string>, lines: map<string, Line>)

  const EMPTY := Cache([], map[])

  ghost predicate WellFormed(c: Cache) {
    NoDup(c.order) && forall k :: k in c.order <==> k in c.lines
  }

  // ---------------------------------------------------------------- operations

  function MoveToEnd(order: seq<string>, k: string): seq<string> {
    Without(k, order) + [k]
  }

  /** Makes room when the cache is full, whether or not the key to be put is already present. */
  function Evict(c: Cache, size: int): Cache {
    if |c.order| >= size && c.order != [] then Cache(c.order[1..], c.lines - {c.order[0]}) else c
  }

  predicate Hits(c: Cache, k: string) {
    k in c.lines && c.lines[k].state != Invalid
  }

  function GetValue(c: Cache, k: string): Value {
    if Hits(c, k) then c.lines[k].value else None
  }

  function Get(c: Cache, k: string): Cache {
    if k !in c.lines then c
    else
      Cache(MoveToEnd(c.order, k), c.lines[k := c.lines[k].(accessCount := c.lines[k].accessCount + 1)])
  }

  predicate Local(me: NodeId, from: Option<NodeId>) {
    from.None? || from.value == me
  }

  /** The line that a write finds or creates. */
  function Found(c: Cache, k: string, v: Value): Line {
    if k in c.lines then c.lines[k] else Line(v, Invalid, None, [], 0)
  }

  function Written(line: Line, v: Value, me: NodeId, from: Option<NodeId>): Line {
    if Local(me, from) then line.(value := v, state := Modified, owner := Some(me), sharedBy := [])
    else
      line.(value := v, state := Shared,
            sharedBy := if from.value in line.sharedBy then line.sharedBy else line.sharedBy + [from.value])
  }

  function Put(c: Cache, size: int, me: NodeId, k: string, v: Value, from: Option<NodeId>): Cache {
    PutInto(Evict(c, size), me, k, v, from)
  }

  /** The write once there is room. */
  function PutInto(d: Cache, me: NodeId, k: string, v: Value, from: Option<NodeId>): Cache {
    Cache(MoveToEnd(d.order, k), d.lines[k := Written(Found(d, k, v), v, me, from)])
  }

  /** Shared and exclusive lines can be invalidated, modified ones cannot. */
  predicate Invalidates(c: Cache, k: string) {
    k in c.lines && c.lines[k].state in {Shared, Exclusive}
  }

  function Invalidate(c: Cache, k: string): Cache {
    if Invalidates(c, k) then c.(lines := c.lines[k := c.lines[k].(state := Invalid, value := None, owner := None)])
    else c
  }

  function ToExclusive(c: Cache, k: string): Cache {
    if k in c.lines && c.lines[k].state == Shared then c.(lines := c.lines[k := c.lines[k].(state := Exclusive)])
    else c
  }

  function ToModified(c: Cache, k: string, me: NodeId): Cache {
    if k in c.lines && c.lines[k].state == Exclusive then
      c.(lines := c.lines[k := c.lines[k].(state := Modified, owner := Some(me), sharedBy := [])])
    else c
  }

  function SetSharedBy(c: Cache, k: string, nodes: seq<NodeId>): Cache {
    if k in c.lines then c.(lines := c.lines[k := c.lines[k].(sharedBy := nodes)]) else c
  }

  datatype Op =
    | GetOp(key: string)
    | PutOp(key: string, value: Value, from: Option<NodeId>)
    | InvalidateOp(key: string)
    | ToExclusiveOp(key: string)
    | ToModifiedOp(key: string)
    | SetSharedByOp(key: string, nodes: seq<NodeId>)

  function Apply(me: NodeId, size: int, c: Cache, op: Op): Cache {
    match op
    case GetOp(k) => Get(c, k)
    case PutOp(k, v, from) => Put(c, size, me, k, v, from)
    case InvalidateOp(k) => Invalidate(c, k)
    case ToExclusiveOp(k) => ToExclusive(c, k)
    case ToModifiedOp(k) => ToModified(c, k, me)
    case SetSharedByOp(k, nodes) => SetSharedBy(c, k, nodes)
  }

  function Run(me: NodeId, size: int, ops: seq<Op>): Cache {
    if ops == [] then EMPTY else Apply(me, size, Run(me, size, ops[..|ops| - 1]), ops[|ops| - 1])
  }

  // ---------------------------------------------------------------- touching

  /** A write touches its key, and so does a read that finds a line, even an invalid one. */
  predicate Touches(c: Cache, op: Op, k: string) {
    op.key == k && (op.PutOp? || (op.GetOp? && k in c.lines))
  }

  /** Position in the run of the last touch, -1 when there was none. */
  function LastTouch(me: NodeId, size: int, ops: seq<Op>, k: string): int {
    if ops == [] then -1
    else if Touches(Run(me, size, ops[..|ops| - 1]), ops[|ops| - 1], k) then |ops| - 1
    else LastTouch(me, size, ops[..|ops| - 1], k)
  }

  /** The other keys touched since the last touch of k. */
  function OthersSince(me: NodeId, size: int, ops: seq<Op>, k: string): set<string> {
    if ops == [] then {}
    else
      var c, op, before := Run(me, size, ops[..|ops| - 1]), ops[|ops| - 1], OthersSince(me, size, ops[..|ops| - 1], k);
      if Touches(c, op, k) then {}
      else if Touches(c, op, op.key) then before + {op.key}
      else before
  }

  /** The elements after k. */
  function Later(order: seq<string>, k: string): set<string> {
    if order == [] || order[|order| - 1] == k then {}
    else Later(order[..|order| - 1], k) + {order[|order| - 1]}
  }

  // ---------------------------------------------------------------- facts about the order

  lemma {:induction false} WithoutNoDup(k: string, s: seq<string>)
    requires NoDup(s)
    ensures NoDup(Without(k, s)) && |Without(k, s)| == |s| - if k in s then 1 else 0
  {
    if s != [] {
      var front, x := s[..|s| - 1], s[|s| - 1];
      assert s == front + [x];
      WithoutNoDup(k, front);
      WithoutMore(k, front, x);
      WithoutMembers(k, front);
      assert forall i :: 0 <= i < |Without(k, front)| ==> Without(k, front)[i] in front;
    }
  }

  lemma {:induction false} LaterMore(order: seq<string>, x: string, k: string)
    ensures Later(order + [x], k) == if x == k then {} else Later(order, k) + {x}
  {
    assert (order + [x])[..|order|] == order;
  }

  lemma {:induction false} LaterWithout(order: seq<string>, j: string, k: string)
    requires j != k
    ensures Later(Without(j, order), k) == Later(order, k) - {j}
  {
    if order != [] {
      var front, x := order[..|order| - 1], order[|order| - 1];
      assert order == front + [x];
      LaterWithout(front, j, k);
      WithoutMore(j, front, x);
      LaterMore(front, x, k);
      LaterMore(Without(j, front), x, k);
    }
  }

  lemma {:induction false} LaterTail(order: seq<string>, k: string)
    requires order != [] && k in order[1..]
    ensures Later(order[1..], k) == Later(order, k)
  {
    var front, x := order[..|order| - 1], order[|order| - 1];
    assert order == front + [x] && order[1..] == front[1..] + [x];
    LaterMore(front, x, k);
    LaterMore(front[1..], x, k);
    if x != k {
      LaterTail(front, k);
    }
  }

  lemma {:induction false} LaterBound(order: seq<string>, k: string)
    requires NoDup(order) && k in order
    ensures |Later(order, k)| < |order| && forall x :: x in Later(order, k) ==> x in order
  {
    var front, x := order[..|order| - 1], order[|order| - 1];
    assert order == front + [x];
    LaterMore(front, x, k);
    if x != k {
      LaterBound(front, k);
    }
  }

  /** All others come after the least recently used key. */
  lemma {:induction false} LaterThanFirst(order: seq<string>)
    requires NoDup(order) && order != []
    ensures |Later(order, order[0])| == |order| - 1
    ensures forall x :: x in Later(order, order[0]) <==> x in order && x != order[0]
  {
    if |order| > 1 {
      var front, x := order[..|order| - 1], order[|order| - 1];
      assert order == front + [x] && front[0] == order[0];
      LaterThanFirst(front);
      LaterMore(front, x, order[0]);
      assert x !in front;
      assert x !in Later(front, order[0]);
    }
  }

  lemma TailNoDup(order: seq<string>)
    requires NoDup(order) && order != []
    ensures NoDup(order[1..]) && forall x :: x in order[1..] <==> x in order && x != order[0]
  {
    assert order == [order[0]] + order[1..];
  }

  // ---------------------------------------------------------------- residency over runs

  lemma EvictFacts(c: Cache, size: int)
    requires WellFormed(c) && size >= 1 && |c.order| <= size
    ensures var d := Evict(c, size);
            && WellFormed(d) && |d.order| <= size - 1
            && (d == c || (|c.order| == size && d.order == c.order[1..]))
  {
    if c.order != [] {
      TailNoDup(c.order);
    }
  }

  /** What an operation does to the order: nothing, or its key goes to the end, after an eviction if it
      is a write into a full cache. */
  lemma OrderAfter(me: NodeId, size: int, c: Cache, op: Op) returns (rest: seq<string>)
    requires WellFormed(c) && size >= 1 && |c.order| <= size
    ensures var d := Apply(me, size, c, op);
            && WellFormed(d) && |d.order| <= size
            && NoDup(rest)
            && (rest == c.order || (op.PutOp? && |c.order| == size && rest == c.order[1..]))
            && (d.order == if Touches(c, op, op.key) then MoveToEnd(rest, op.key) else c.order)
  {
    rest := if op.PutOp? then Evict(c, size).order else c.order;
    if op.PutOp? {
      EvictFacts(c, size);
    }
    WithoutNoDup(op.key, rest);
    WithoutMembers(op.key, rest);
  }

  lemma GetWellFormed(c: Cache, k: string)
    requires WellFormed(c)
    ensures WellFormed(Get(c, k))
  {
    WithoutNoDup(k, c.order);
    WithoutMembers(k, c.order);
  }

  lemma PutWellFormed(c: Cache, size: int, me: NodeId, k: string, v: Value, from: Option<NodeId>)
    requires WellFormed(c)
    ensures WellFormed(Put(c, size, me, k, v, from))
  {
    var d := Evict(c, size);
    if d != c {
      TailNoDup(c.order);
    }
    WithoutNoDup(k, d.order);
    WithoutMembers(k, d.order);
  }

  lemma {:induction false} RunWellFormed(me: NodeId, size: int, ops: seq<Op>)
    requires size >= 1
    ensures WellFormed(Run(me, size, ops)) && |Run(me, size, ops).order| <= size
  {
    if ops != [] {
      RunWellFormed(me, size, ops[..|ops| - 1]);
      var rest := OrderAfter(me, size, Run(me, size, ops[..|ops| - 1]), ops[|ops| - 1]);
    }
  }

  /** `rank` increases along the sequence, from 0 on and below `bound`. */
  ghost predicate Increasing(s: seq<string>, rank: string -> int, bound: int) {
    && (forall i :: 0 <= i < |s| ==> 0 <= rank(s[i]) < bound)
    && (forall i, j :: 0 <= i < j < |s| ==> rank(s[i]) < rank(s[j]))
  }

  lemma {:induction false} WithoutIncreasing(s: seq<string>, k: string, rank: string -> int, bound: int)
    requires Increasing(s, rank, bound)
    ensures Increasing(Without(k, s), rank, bound)
  {
    if s != [] {
      var front, x := s[..|s| - 1], s[|s| - 1];
      var kept := Without(k, front);
      assert s == front + [x];
      WithoutIncreasing(front, k, rank, bound);
      WithoutMore(k, front, x);
      WithoutMembers(k, front);
      forall i | 0 <= i < |kept| ensures rank(kept[i]) < rank(x) {
        assert kept[i] in front;
      }
      assert Increasing(kept + [x], rank, bound);
    }
  }

  /** Moving k to the end keeps the order increasing when k gets the highest rank. */
  lemma MoveIncreasing(s: seq<string>, k: string, rank: string -> int, newRank: string -> int, bound: nat)
    requires Increasing(s, rank, bound) && newRank(k) == bound
    requires forall x :: x != k ==> newRank(x) == rank(x)
    ensures Increasing(MoveToEnd(s, k), newRank, bound + 1)
  {
    WithoutIncreasing(s, k, rank, bound);
    WithoutMembers(k, s);
    var kept := Without(k, s);
    forall i | 0 <= i < |kept| ensures newRank(kept[i]) == rank(kept[i]) {
      assert kept[i] in kept;
    }
  }

  /** The order of the map is the order of last touches, oldest first. */
  lemma {:induction false} TouchOrderHolds(me: NodeId, size: int, ops: seq<Op>)
    requires size >= 1
    ensures Increasing(Run(me, size, ops).order, Touch(me, size, ops), |ops|)
  {
    if ops != [] {
      var front, op := ops[..|ops| - 1], ops[|ops| - 1];
      var c := Run(me, size, front);
      TouchOrderHolds(me, size, front);
      RunWellFormed(me, size, front);
      TouchesMoveOn(me, size, ops);
      StepIncreasing(me, size, c, op, Touch(me, size, front), Touch(me, size, ops), |front|);
    }
  }

  function Touch(me: NodeId, size: int, ops: seq<Op>): string -> int {
    k => LastTouch(me, size, ops, k)
  }

  lemma {:induction false} TouchesMoveOn(me: NodeId, size: int, ops: seq<Op>)
    requires ops != []
    ensures var front, op := ops[..|ops| - 1], ops[|ops| - 1];
            && (forall x :: x != op.key ==> Touch(me, size, ops)(x) == Touch(me, size, front)(x))
            && Touch(me, size, ops)(op.key)
            == if Touches(Run(me, size, front), op, op.key) then |front| else Touch(me, size, front)(op.key)
  {
  }

  /** One operation keeps the order increasing when its key gets the highest rank. */
  lemma StepIncreasing(me: NodeId, size: int, c: Cache, op: Op, rank: string -> int, newRank: string -> int,
                       bound: nat)
    requires WellFormed(c) && size >= 1 && |c.order| <= size && Increasing(c.order, rank, bound)
    requires forall x :: x != op.key ==> newRank(x) == rank(x)
    requires newRank(op.key) == if Touches(c, op, op.key) then bound else rank(op.key)
    ensures Increasing(Apply(me, size, c, op).order, newRank, bound + 1)
  {
    var rest := OrderAfter(me, size, c, op);
    if Touches(c, op, op.key) {
      RestIncreasing(c.order, rest, rank, bound);
      MoveIncreasing(rest, op.key, rank, newRank, bound);
    } else {
      assert forall k :: newRank(k) == rank(k);
    }
  }

  lemma RestIncreasing(order: seq<string>, rest: seq<string>, rank: string -> int, bound: int)
    requires Increasing(order, rank, bound) && (rest == order || (order != [] && rest == order[1..]))
    ensures Increasing(rest, rank, bound)
  {
  }

  /** The keys that come after a resident key are those touched since it was. */
  lemma {:induction false} LaterIsOthers(me: NodeId, size: int, ops: seq<Op>, k: string)
    requires size >= 1 && k in Run(me, size, ops).lines
    ensures LastTouch(me, size, ops, k) >= 0
    ensures Later(Run(me, size, ops).order, k) == OthersSince(me, size, ops, k)
  {
    var front, op := ops[..|ops| - 1], ops[|ops| - 1];
    var c := Run(me, size, front);
    RunWellFormed(me, size, front);
    var rest := OrderAfter(me, size, c, op);
    WithoutMembers(op.key, rest);
    assert k in Run(me, size, ops).order;
    if Touches(c, op, k) {
      LaterMore(Without(k, rest), k, k);
    } else {
      LaterIsOthers(me, size, front, k);
      if Touches(c, op, op.key) {
        LaterAfterMove(c.order, rest, op.key, k);
      }
    }
  }

  lemma {:induction false} LaterAfterMove(order: seq<string>, rest: seq<string>, j: string, k: string)
    requires j != k && k in rest && (rest == order || (order != [] && rest == order[1..]))
    ensures Later(MoveToEnd(rest, j), k) == Later(order, k) + {j}
  {
    LaterMore(Without(j, rest), j, k);
    LaterWithout(rest, j, k);
    if rest != order {
      LaterTail(order, k);
    }
  }

  /** A write of a key that is present throws another one out of a full cache for nothing. */
  predicate Wastes(c: Cache, size: int, op: Op) {
    op.PutOp? && |c.order| >= size && op.key in c.lines && c.order != [] && c.order[0] != op.key
  }

  predicate NeverWastes(me: NodeId, size: int, ops: seq<Op>) {
    ops == [] ||
    (NeverWastes(me, size, ops[..|ops| - 1]) && !Wastes(Run(me, size, ops[..|ops| - 1]), size, ops[|ops| - 1]))
  }

  /** A key that is gone had at least size - 1 others touched since, or size if nothing was wasted. */
  lemma {:induction false} GoneAfterOthers(me: NodeId, size: int, ops: seq<Op>, k: string)
    requires size >= 1 && LastTouch(me, size, ops, k) >= 0 && k !in Run(me, size, ops).lines
    ensures |OthersSince(me, size, ops, k)| >= size - if NeverWastes(me, size, ops) then 0 else 1
  {
    var front, op := ops[..|ops| - 1], ops[|ops| - 1];
    var c := Run(me, size, front);
    RunWellFormed(me, size, front);
    var rest := OrderAfter(me, size, c, op);
    WithoutMembers(op.key, rest);
    var before, now := OthersSince(me, size, front, k), OthersSince(me, size, ops, k);
    assert !Touches(c, op, k);
    SubsetCard(before, now);
    if k !in c.lines {
      GoneAfterOthers(me, size, front, k);
    } else {
      FirstEvicted(me, size, c, op, k);
      LaterIsOthers(me, size, front, k);
      LaterThanFirst(c.order);
      assert op.key !in c.lines ==> op.key !in before && now == before + {op.key};
    }
  }

  lemma FirstEvicted(me: NodeId, size: int, c: Cache, op: Op, k: string)
    requires WellFormed(c) && size >= 1 && |c.order| <= size
    requires k in c.lines && k !in Apply(me, size, c, op).lines
    ensures op.PutOp? && op.key != k && |c.order| == size && k == c.order[0]
  {
  }

  /** Residency: a key stays as long as fewer than size - 1 other keys were touched since its own last
      touch. */
  lemma {:induction false} StillResident(me: NodeId, size: int, ops: seq<Op>, k: string)
    requires size >= 1 && LastTouch(me, size, ops, k) >= 0
    requires |OthersSince(me, size, ops, k)| < size - 1
    ensures k in Run(me, size, ops).lines
  {
    if k !in Run(me, size, ops).lines {
      GoneAfterOthers(me, size, ops, k);
      assert false;
    }
  }

  /** The cache is least recently used to the letter: resident are exactly the keys with fewer than
      `size` others touched since. */
  ghost predicate ExactLru(me: NodeId, size: int, ops: seq<Op>) {
    forall k :: ResidentIffRecent(me, size, ops, k)
  }

  ghost predicate ResidentIffRecent(me: NodeId, size: int, ops: seq<Op>, k: string) {
    k in Run(me, size, ops).lines <==> LastTouch(me, size, ops, k) >= 0 && |OthersSince(me, size, ops, k)| < size
  }

  /** After every operation of the run so far. */
  ghost predicate ExactThroughout(me: NodeId, size: int, ops: seq<Op>) {
    ExactLru(me, size, ops) && (ops == [] || ExactThroughout(me, size, ops[..|ops| - 1]))
  }

  lemma {:induction false} NoWasteExact(me: NodeId, size: int, ops: seq<Op>)
    requires size >= 1 && NeverWastes(me, size, ops)
    ensures ExactLru(me, size, ops)
  {
    RunWellFormed(me, size, ops);
    forall k ensures ResidentIffRecent(me, size, ops, k) {
      if k in Run(me, size, ops).lines {
        LaterIsOthers(me, size, ops, k);
        LaterBound(Run(me, size, ops).order, k);
      } else if LastTouch(me, size, ops, k) >= 0 {
        GoneAfterOthers(me, size, ops, k);
      }
    }
  }

  lemma {:induction false} WasteInexact(me: NodeId, size: int, ops: seq<Op>)
    requires size >= 1 && ops != [] && Wastes(Run(me, size, ops[..|ops| - 1]), size, ops[|ops| - 1])
    ensures !ExactLru(me, size, ops)
  {
    var front, op := ops[..|ops| - 1], ops[|ops| - 1];
    var c := Run(me, size, front);
    var k := c.order[0];
    RunWellFormed(me, size, front);
    LaterIsOthers(me, size, front, k);
    LaterThanFirst(c.order);
    assert OthersSince(me, size, ops, k) == OthersSince(me, size, front, k);
    FirstThrownOut(me, size, c, op);
    assert !ResidentIffRecent(me, size, ops, k);
  }

  lemma FirstThrownOut(me: NodeId, size: int, c: Cache, op: Op)
    requires WellFormed(c) && Wastes(c, size, op)
    ensures c.order[0] !in Apply(me, size, c, op).lines
  {
  }

  /** The exact condition: the cache is least recently used throughout a run if and only if the run
      never writes a present key into a full cache, save the one due for eviction. */
  lemma {:induction false} ExactThroughoutIff(me: NodeId, size: int, ops: seq<Op>)
    requires size >= 1
    ensures ExactThroughout(me, size, ops) <==> NeverWastes(me, size, ops)
  {
    if NeverWastes(me, size, ops) {
      NoWasteExact(me, size, ops);
    }
    if ops != [] {
      ExactThroughoutIff(me, size, ops[..|ops| - 1]);
      if Wastes(Run(me, size, ops[..|ops| - 1]), size, ops[|ops| - 1]) {
        WasteInexact(me, size, ops);
      }
    }
  }

  /** The bound is one less than that of a cache that evicts only to insert: writing a again throws k
      out of a cache of two, though a is the only other key. */
  lemma OneLessThanUsual(me: NodeId, k: string, a: string, v: Value)
    requires k != a
    ensures var ops := [PutOp(k, v, None), PutOp(a, v, None), PutOp(a, v, None)];
            LastTouch(me, 2, ops, k) == 0 && OthersSince(me, 2, ops, k) == {a} && k !in Run(me, 2, ops).lines
  {
    var p, q := PutOp(k, v, None), PutOp(a, v, None);
    var one, two, three := [p], [p, q], [p, q, q];
    assert [] + [p] == one && one + [q] == two && two + [q] == three;
    OneMore(me, [], p, k);
    OneMore(me, one, q, k);
    OneMore(me, two, q, k);
    ThreeWrites(me, k, a, v);
  }

  lemma ThreeWrites(me: NodeId, k: string, a: string, v: Value)
    requires k != a
    ensures k !in Put(Put(Put(EMPTY, 2, me, k, v, None), 2, me, a, v, None), 2, me, a, v, None).lines
  {
    var c := Put(EMPTY, 2, me, k, v, None);
    assert Without(k, []) == [] && Without(a, []) == [];
    assert c.order == [k];
    WithoutMore(a, [], k);
    assert [] + [k] == [k];
    var d := Put(c, 2, me, a, v, None);
    assert d.order == [k] + [a];
  }

  /** The run after one more write. */
  lemma OneMore(me: NodeId, ops: seq<Op>, op: Op, k: string)
    requires op.PutOp?
    ensures Run(me, 2, ops + [op]) == Apply(me, 2, Run(me, 2, ops), op)
    ensures LastTouch(me, 2, ops + [op], k) == if op.key == k then |ops| else LastTouch(me, 2, ops, k)
    ensures OthersSince(me, 2, ops + [op], k) == if op.key == k then {} else OthersSince(me, 2, ops, k) + {op.key}
  {
    assert (ops + [op])[..|ops|] == ops;
  }

  // ---------------------------------------------------------------- values over runs

  /** The value of the latest put of k, none once an invalidation took effect after it. */
  function Fresh(me: NodeId, size: int, ops: seq<Op>, k: string): Option<Value> {
    if ops == [] then None
    else
      var op := ops[|ops| - 1];
      if op.key != k then Fresh(me, size, ops[..|ops| - 1], k)
      else if op.PutOp? then Some(op.value)
      else if op.InvalidateOp? && Invalidates(Run(me, size, ops[..|ops| - 1]), k) then None
      else Fresh(me, size, ops[..|ops| - 1], k)
  }

  /** A hit returns the latest put value, never one from before an invalidation that took effect. */
  lemma {:induction false} HitsAreFresh(me: NodeId, size: int, ops: seq<Op>, k: string)
    requires size >= 1
    ensures Hits(Run(me, size, ops), k) ==> Fresh(me, size, ops, k) == Some(Run(me, size, ops).lines[k].value)
  {
    if ops != [] {
      HitsAreFresh(me, size, ops[..|ops| - 1], k);
    }
  }

  /** Exactly when a read hits, and what it returns: a resident key that was not invalidated since its latest
      put gives the value of that put, any other key gives none. */
  lemma {:induction false} HitsIff(me: NodeId, size: int, ops: seq<Op>, k: string)
    requires size >= 1
    ensures var c, latest := Run(me, size, ops), Fresh(me, size, ops, k);
            && (Hits(c, k) <==> k in c.lines && latest.Some?)
            && GetValue(c, k) == if k in c.lines && latest.Some? then latest.value else None
  {
    HitsAreFresh(me, size, ops, k);
    if k in Run(me, size, ops).lines && Fresh(me, size, ops, k).Some? {
      FreshIsValid(me, size, ops, k);
    }
  }

  lemma {:induction false} FreshIsValid(me: NodeId, size: int, ops: seq<Op>, k: string)
    requires k in Run(me, size, ops).lines && Fresh(me, size, ops, k).Some?
    ensures Run(me, size, ops).lines[k].state != Invalid
  {
    var front, op := ops[..|ops| - 1], ops[|ops| - 1];
    if !(op.PutOp? && op.key == k) {
      FreshIsValid(me, size, front, k);
    }
  }

  // ---------------------------------------------------------------- states over runs

  /** The state that the operations on k leave a line in: a local put makes it modified and a remote one
      shared; from shared it becomes exclusive and from exclusive modified; shared and exclusive lines can be
      invalidated. */
  function StateAfter(me: NodeId, ops: seq<Op>, k: string): LineState {
    if ops == [] then Invalid
    else
      var before, op := StateAfter(me, ops[..|ops| - 1], k), ops[|ops| - 1];
      if op.key != k then before
      else
        match op
        case PutOp(_, _, from) => if from == None || from == Some(me) then Modified else Shared
        case InvalidateOp(_) => if before in {Shared, Exclusive} then Invalid else before
        case ToExclusiveOp(_) => if before == Shared then Exclusive else before
        case ToModifiedOp(_) => if before == Exclusive then Modified else before
        case _ => before
  }

  /** Every resident line is in that state. */
  lemma {:induction false} StatesHold(me: NodeId, size: int, ops: seq<Op>, k: string)
    requires size >= 1 && k in Run(me, size, ops).lines
    ensures Run(me, size, ops).lines[k].state == StateAfter(me, ops, k)
  {
    var front, op := ops[..|ops| - 1], ops[|ops| - 1];
    if k in Run(me, size, front).lines {
      StatesHold(me, size, front, k);
    }
    StepState(me, size, Run(me, size, front), op, k);
  }

  /** One operation on a cache where a line of k is in state `before`, if there is one. */
  lemma StepState(me: NodeId, size: int, c: Cache, op: Op, k: string)
    requires k in Apply(me, size, c, op).lines
    ensures var t := Apply(me, size, c, op).lines[k].state;
            if op.PutOp? && op.key == k then t == if Local(me, op.from) then Modified else Shared
            else
              && k in c.lines
              && var s := c.lines[k].state;
                 t == if op.key != k then s
                      else if op.InvalidateOp? && (s == Shared || s == Exclusive) then Invalid
                      else if op.ToExclusiveOp? && s == Shared then Exclusive
                      else if op.ToModifiedOp? && s == Exclusive then Modified
                      else s
  {
  }

  /** A modified line is owned by the node, and an invalid one has neither owner nor value. */
  lemma {:induction false} OwnersHold(me: NodeId, size: int, ops: seq<Op>, k: string)
    requires size >= 1 && k in Run(me, size, ops).lines
    ensures var line := Run(me, size, ops).lines[k];
            && (line.state == Modified ==> line.owner == Some(me))
            && (line.state == Invalid ==> line.owner == None && line.value == None)
  {
    var front, op := ops[..|ops| - 1], ops[|ops| - 1];
    if k in Run(me, size, front).lines {
      OwnersHold(me, size, front, k);
    }
  }

  /** A remote write to a line that stays keeps its owner and its other sharers, and adds the writer once. */
  lemma RemoteWrite(c: Cache, size: int, me: NodeId, k: string, v: Value, from: NodeId)
    requires from != me && k in Evict(c, size).lines
    ensures var before, after := c.lines[k], Put(c, size, me, k, v, Some(from)).lines[k];
            && after.value == v && after.owner == before.owner && after.accessCount == before.accessCount
            && (forall n :: n in after.sharedBy <==> n in before.sharedBy || n == from)
            && (NoDup(before.sharedBy) ==> NoDup(after.sharedBy))
  {
  }

  /** A line made by a remote write has no owner yet and its writer as the one sharer. */
  lemma NewRemoteLine(c: Cache, size: int, me: NodeId, k: string, v: Value, from: NodeId)
    requires from != me && k !in Evict(c, size).lines
    ensures Put(c, size, me, k, v, Some(from)).lines[k] == Line(v, Shared, None, [from], 0)
  {
  }

  /** What the operations on k say of its sharers: exactly a list, or that a node is among them. */
  datatype Sharers = Unknown | Exactly(nodes: seq<NodeId>) | Among(node: NodeId)

  /** None share a line after a local put or once it turns modified; a remote put adds its sender. */
  function SharersAfter(me: NodeId, ops: seq<Op>, k: string): Sharers {
    if ops == [] then Unknown
    else
      var front, op := ops[..|ops| - 1], ops[|ops| - 1];
      var before := SharersAfter(me, front, k);
      if op.key != k then before
      else
        match op
        case PutOp(_, _, from) => if from == None || from == Some(me) then Exactly([]) else Among(from.value)
        case SetSharedByOp(_, nodes) => Exactly(nodes)
        case ToModifiedOp(_) => if StateAfter(me, front, k) == Exclusive then Exactly([]) else before
        case _ => before
  }

  predicate Fits(sharedBy: seq<NodeId>, known: Sharers) {
    match known
    case Unknown => true
    case Exactly(nodes) => sharedBy == nodes
    case Among(node) => node in sharedBy
  }

  /** The sharers of every resident line are as they say. */
  lemma {:induction false} SharersHold(me: NodeId, size: int, ops: seq<Op>, k: string)
    requires size >= 1 && k in Run(me, size, ops).lines
    ensures Fits(Run(me, size, ops).lines[k].sharedBy, SharersAfter(me, ops, k))
  {
    var front, op := ops[..|ops| - 1], ops[|ops| - 1];
    if !(op.PutOp? && op.key == k) {
      SharersHold(me, size, front, k);
      StatesHold(me, size, front, k);
    }
  }

  /** The reads of k since its line was made. */
  function Reads(me: NodeId, size: int, ops: seq<Op>, k: string): nat {
    if ops == [] then 0
    else
      var front, op := ops[..|ops| - 1], ops[|ops| - 1];
      if op == GetOp(k) then Reads(me, size, front, k) + 1
      else if op.PutOp? && op.key == k && k !in Evict(Run(me, size, front), size).lines then 0
      else Reads(me, size, front, k)
  }

  lemma {:induction false} ReadsCounted(me: NodeId, size: int, ops: seq<Op>, k: string)
    requires size >= 1 && k in Run(me, size, ops).lines
    ensures Run(me, size, ops).lines[k].accessCount == Reads(me, size, ops, k)
  {
    var front, op := ops[..|ops| - 1], ops[|ops| - 1];
    if k in Run(me, size, front).lines {
      ReadsCounted(me, size, front, k);
    }
  }

  // ---------------------------------------------------------------- local writes over runs

  /** The value of the latest put of k if that put was local. */
  function OwnWrite(me: NodeId, ops: seq<Op>, k: string): Option<Value> {
    if ops == [] then None
    else
      var op := ops[|ops| - 1];
      if op.PutOp? && op.key == k then (if Local(me, op.from) then Some(op.value) else None)
      else OwnWrite(me, ops[..|ops| - 1], k)
  }

  /** A resident local write is modified and unchanged, whatever was invalidated or moved between
      states since. */
  lemma {:induction false} OwnWriteStays(me: NodeId, size: int, ops: seq<Op>, k: string)
    requires size >= 1 && OwnWrite(me, ops, k).Some? && k in Run(me, size, ops).lines
    ensures var line := Run(me, size, ops).lines[k];
            line.state == Modified && line.value == OwnWrite(me, ops, k).value && line.owner == Some(me)
  {
    var front, op := ops[..|ops| - 1], ops[|ops| - 1];
    RunWellFormed(me, size, front);
    if !(op.PutOp? && op.key == k) {
      OwnWriteStays(me, size, front, k);
    }
  }

  /** A local write survives: until k is put again, every read of k returns the value of the local put
      while fewer than size - 1 other keys were touched since k was. */
  lemma {:induction false} LocalWriteSurvives(me: NodeId, size: int, ops: seq<Op>, k: string)
    requires size >= 1 && OwnWrite(me, ops, k).Some?
    requires |OthersSince(me, size, ops, k)| < size - 1
    ensures GetValue(Run(me, size, ops), k) == OwnWrite(me, ops, k).value
  {
    OwnWriteTouched(me, size, ops, k);
    StillResident(me, size, ops, k);
    OwnWriteStays(me, size, ops, k);
  }

  lemma {:induction false} OwnWriteTouched(me: NodeId, size: int, ops: seq<Op>, k: string)
    requires OwnWrite(me, ops, k).Some?
    ensures LastTouch(me, size, ops, k) >= 0
  {
    var front, op := ops[..|ops| - 1], ops[|ops| - 1];
    if !(op.PutOp? && op.key == k) {
      OwnWriteTouched(me, size, front, k);
    }
  }

  // ---------------------------------------------------------------- the cache in place

  class MESICache {
    const nodeId: NodeId
    const cacheSize: int
    const allNodes: seq<NodeId>
    var order: seq<string>
    var lines: map<string, Line>
    var pendingInvalidations: map<string, seq<NodeId>>
    var hits: nat
    var misses: nat
    var sent: nat
    var received: nat
    var transitions: nat

    function State(): Cache
      reads this
    {
      Cache(order, lines)
    }

    ghost predicate Valid()
      reads this
    {
      WellFormed(State())
    }

    constructor (nodeId: NodeId, cacheSize: int, allNodes: seq<NodeId>)
      ensures Valid() && State() == EMPTY && this.nodeId == nodeId && this.cacheSize == cacheSize
      ensures this.allNodes == if allNodes == [] then [nodeId] else allNodes
      ensures pendingInvalidations == map[] && hits == misses == sent == received == transitions == 0
    {
      this.nodeId, this.cacheSize := nodeId, cacheSize;
      this.allNodes := if allNodes == [] then [nodeId] else allNodes;
      order, lines, pendingInvalidations := [], map[], map[];
      hits, misses, sent, received, transitions := 0, 0, 0, 0, 0;
    }

    /** False stands for the error of looking for a first key in an empty map. */
    method EvictLru() returns (ok: bool)
      requires Valid()
      modifies this`order, this`lines
      ensures Valid() && State() == Evict(old(State()), cacheSize)
      ensures ok <==> !(|old(order)| >= cacheSize && old(order) == [])
    {
      if |order| >= cacheSize {
        if order == [] {
          return false;
        }
        TailNoDup(order);
        lines := lines - {order[0]};
        order := order[1..];
      }
      return true;
    }

    method MoveKeyToEnd(k: string)
      requires k in lines
      modifies this`order
      ensures order == MoveToEnd(old(order), k)
    {
      order := Without(k, order) + [k];
    }

    method Read(k: string) returns (value: Value)
      requires Valid()
      modifies this
      ensures Valid() && State() == Get(old(State()), k)
      ensures value == GetValue(old(State()), k)
      ensures hits == old(hits) + (if Hits(old(State()), k) then 1 else 0)
      ensures misses == old(misses) + (if Hits(old(State()), k) then 0 else 1)
      ensures transitions == old(transitions) && sent == old(sent) && received == old(received)
      ensures pendingInvalidations == old(pendingInvalidations)
    {
      GetWellFormed(State(), k);
      if k !in lines {
        misses := misses + 1;
        return None;
      }
      MoveKeyToEnd(k);
      var line := lines[k].(accessCount := lines[k].accessCount + 1);
      lines := lines[k := line];
      assert State() == Get(old(State()), k);
      if line.state == Invalid {
        misses := misses + 1;
        return None;
      }
      hits := hits + 1;
      return line.value;
    }

    /** None stands for the error raised when nothing can be evicted. */
    method Write(k: string, value: Value, from: Option<NodeId>) returns (state: Option<LineState>)
      requires Valid()
      modifies this
      ensures Valid()
      ensures state.None? <==> |old(order)| >= cacheSize && old(order) == []
      ensures state.None? ==> State() == old(State()) && transitions == old(transitions)
      ensures state.Some? ==>
                && State() == Put(old(State()), cacheSize, nodeId, k, value, from)
                && state.value == (if Local(nodeId, from) then Modified else Shared)
                && transitions == old(transitions) + 1
      ensures var before := Found(Evict(old(State()), cacheSize), k, value);
              var announce := state.Some? && Local(nodeId, from) && before.state != Invalid;
              && sent == old(sent) + (if announce then 1 else 0)
              && pendingInvalidations == if announce then old(pendingInvalidations)[k := Without(nodeId, allNodes)]
                                         else old(pendingInvalidations)
      ensures hits == old(hits) && misses == old(misses) && received == old(received)
    {
      PutWellFormed(State(), cacheSize, nodeId, k, value, from);
      var ok := EvictLru();
      if !ok {
        return None;
      }
      var newState := WriteLine(k, value, from);
      return Some(newState);
    }

    /** The part of a write that follows the eviction. */
    method WriteLine(k: string, value: Value, from: Option<NodeId>) returns (newState: LineState)
      modifies this
      ensures State() == PutInto(old(State()), nodeId, k, value, from)
      ensures newState == if Local(nodeId, from) then Modified else Shared
      ensures var announce := Local(nodeId, from) && Found(old(State()), k, value).state != Invalid;
              && sent == old(sent) + (if announce then 1 else 0)
              && pendingInvalidations == if announce then old(pendingInvalidations)[k := Without(nodeId, allNodes)]
                                         else old(pendingInvalidations)
      ensures transitions == old(transitions) + 1
      ensures hits == old(hits) && misses == old(misses) && received == old(received)
    {
      var line := Line(value, Invalid, None, [], 0);
      if k in lines {
        line := lines[k];
      }
      var oldState := line.state;
      if from.None? || from.value == nodeId {
        newState := Modified;
        line := line.(owner := Some(nodeId), sharedBy := []);
        if oldState != Invalid {
          InvalidateOthers(k);
        }
      } else {
        newState := Shared;
        if from.value !in line.sharedBy {
          line := line.(sharedBy := line.sharedBy + [from.value]);
        }
      }
      lines := lines[k := line.(state := newState, value := value)];
      MoveKeyToEnd(k);
      transitions := transitions + 1;
    }

    method InvalidateOthers(k: string)
      modifies this`pendingInvalidations, this`sent
      ensures pendingInvalidations == old(pendingInvalidations)[k := Without(nodeId, allNodes)]
      ensures sent == old(sent) + 1
    {
      var others: seq<NodeId> := [];
      var i := 0;
      while i < |allNodes|
        invariant 0 <= i <= |allNodes| && others == Without(nodeId, allNodes[..i])
        invariant pendingInvalidations == old(pendingInvalidations) && sent == old(sent)
      {
        WithoutMore(nodeId, allNodes[..i], allNodes[i]);
        assert allNodes[..i + 1] == allNodes[..i] + [allNodes[i]];
        if allNodes[i] != nodeId {
          others := others + [allNodes[i]];
        }
        i := i + 1;
      }
      assert allNodes[..i] == allNodes;
      pendingInvalidations := pendingInvalidations[k := others];
      sent := sent + 1;
    }

    method OnInvalidate(k: string) returns (ok: bool)
      requires Valid()
      modifies this`lines, this`received
      ensures Valid() && State() == Invalidate(old(State()), k)
      ensures ok <==> k !in old(lines) || Invalidates(old(State()), k)
      ensures received == old(received) + (if Invalidates(old(State()), k) then 1 else 0)
    {
      if k !in lines {
        return true;
      }
      if lines[k].state == Modified {
        return false;
      }
      if lines[k].state in {Shared, Exclusive} {
        lines := lines[k := lines[k].(state := Invalid, value := None, owner := None)];
        received := received + 1;
        return true;
      }
      return false;
    }

    method TransitionToExclusive(k: string) returns (ok: bool)
      requires Valid()
      modifies this`lines, this`transitions
      ensures Valid() && State() == ToExclusive(old(State()), k)
      ensures ok <==> k in old(lines) && old(lines)[k].state == Shared
      ensures transitions == old(transitions) + (if ok then 1 else 0)
    {
      if k !in lines {
        return false;
      }
      if lines[k].state == Shared {
        lines := lines[k := lines[k].(state := Exclusive)];
        transitions := transitions + 1;
        return true;
      }
      return false;
    }

    method TransitionToModified(k: string) returns (ok: bool)
      requires Valid()
      modifies this`lines, this`transitions
      ensures Valid() && State() == ToModified(old(State()), k, nodeId)
      ensures ok <==> k in old(lines) && old(lines)[k].state == Exclusive
      ensures transitions == old(transitions) + (if ok then 1 else 0)
    {
      if k !in lines {
        return false;
      }
      if lines[k].state == Exclusive {
        lines := lines[k := lines[k].(state := Modified, owner := Some(nodeId), sharedBy := [])];
        transitions := transitions + 1;
        return true;
      }
      return false;
    }

    method UpdateSharedState(k: string, nodes: seq<NodeId>)
      requires Valid()
      modifies this`lines
      ensures Valid() && State() == SetSharedBy(old(State()), k, nodes)
    {
      if k in lines {
        lines := lines[k := lines[k].(sharedBy := nodes)];
      }
    }
  }
}
