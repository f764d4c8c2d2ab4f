/** Types and sequence facts shared by the models of the four components. */
module Prelude {

  type NodeId = string

  datatype Option<+T> = None | Some(value: T)

  /** The set of elements of a sequence. */
  function Elems<T>(s: seq<T>): set<T> {
    set x | x in s
  }

  ghost predicate NoDup<T(!new)>(s: seq<T>) {
    forall i, j :: 0 <= i < j < |s| ==> s[i] != s[j]
  }

  /** The list stored under a key, empty when there is none. */
  function ListOf<K, V>(m: map<K, seq<V>>, k: K): seq<V> {
    if k in m then m[k] else []
  }

  /** Decimal digits of a natural number. */
  function Decimal(i: nat): string {
    if i < 10 then [('0' as int + i) as char] else Decimal(i / 10) + [('0' as int + i % 10) as char]
  }

  /** The number that decimal digits stand for. */
  function Number(s: string): int {
    if s == [] then 0 else 10 * Number(s[..|s| - 1]) + (s[|s| - 1] as int - '0' as int)
  }

  /** Digits are written and read back; no colon is among them. */
  lemma {:induction false} DecimalReads(i: nat)
    ensures Number(Decimal(i)) == i
    ensures Decimal(i) != [] && forall k :: 0 <= k < |Decimal(i)| ==> '0' <= Decimal(i)[k] <= '9'
  {
    if i >= 10 {
      DecimalReads(i / 10);
      var front, d := Decimal(i / 10), ('0' as int + i % 10) as char;
      assert Decimal(i) == front + [d] && Decimal(i)[..|front|] == front;
    }
  }

  function Join(name: string, i: nat): string {
    name + ":" + Decimal(i)
  }

  /** The last colon is the one that joins. */
  lemma LastColon(name: string, i: nat)
    ensures |Join(name, i)| > |name| && Join(name, i)[|name|] == ':' && Join(name, i)[..|name|] == name
    ensures Join(name, i)[|name| + 1..] == Decimal(i)
    ensures forall k :: |name| < k < |Join(name, i)| ==> Join(name, i)[k] != ':'
  {
    DecimalReads(i);
    assert forall k :: |name| < k < |Join(name, i)| ==> Join(name, i)[k] == Decimal(i)[k - |name| - 1];
  }

  /** A name and a number joined by a colon can be told apart again, even if names have colons. */
  lemma JoinTells(a: string, i: nat, b: string, j: nat)
    requires Join(a, i) == Join(b, j)
    ensures a == b && i == j
  {
    LastColon(a, i);
    LastColon(b, j);
    DecimalReads(i);
    DecimalReads(j);
  }

  function Min(a: int, b: int): int {
    if a < b then a else b
  }

  function Max(a: int, b: int): int {
    if a < b then b else a
  }

  lemma {:induction false} NoDupCard<T(!new)>(s: seq<T>)
    requires NoDup(s)
    ensures |Elems(s)| == |s|
  {
    if s != [] {
      var front := s[..|s| - 1];
      NoDupCard(front);
      assert s == front + [s[|s| - 1]];
      assert Elems(s) == Elems(front) + {s[|s| - 1]};
    }
  }

  lemma SubsetCard<T>(a: set<T>, b: set<T>)
    requires a <= b
    ensures |a| <= |b|
    ensures |a| == |b| ==> a == b
  {
    assert b == a + (b - a);
  }

  /** Two sets that are together larger than a set holding both have a member in common. */
  lemma Pigeonhole<T>(a: set<T>, b: set<T>, universe: set<T>) returns (x: T)
    requires a <= universe && b <= universe
    requires |a| + |b| > |universe|
    ensures x in a && x in b
  {
    SubsetCard(a + b, universe);
    assert |a + b| == |a| + |b| - |a * b|;
    x :| x in a * b;
  }

  lemma Member<T>(s: set<T>) returns (x: T)
    requires s != {}
    ensures x in s
  {
    x :| x in s;
  }

  /** Some duplicate-free listing of a finite set. */
  lemma {:induction false} Enumerate<T(!new)>(s: set<T>) returns (r: seq<T>)
    ensures NoDup(r) && Elems(r) == s && |r| == |s|
    decreases |s|
  {
    if s == {} {
      r := [];
    } else {
      var x :| x in s;
      var rest := Enumerate(s - {x});
      assert x !in Elems(rest);
      r := rest + [x];
      assert Elems(r) == Elems(rest) + {x};
    }
  }

  /** The sequence with every occurrence of n left out. */
  function Without(n: NodeId, s: seq<NodeId>): seq<NodeId> {
    if s == [] then []
    else Without(n, s[..|s| - 1]) + if s[|s| - 1] == n then [] else [s[|s| - 1]]
  }

  lemma {:induction false} WithoutMembers(n: NodeId, s: seq<NodeId>)
    ensures forall x :: x in Without(n, s) <==> x in s && x != n
  {
    if s != [] {
      WithoutMembers(n, s[..|s| - 1]);
      assert s == s[..|s| - 1] + [s[|s| - 1]];
    }
  }

  lemma {:induction false} WithoutMore(n: NodeId, s: seq<NodeId>, x: NodeId)
    ensures Without(n, s + [x]) == if x == n then Without(n, s) else Without(n, s) + [x]
  {
    assert (s + [x])[..|s|] == s;
    assert Without(n, s) + [] == Without(n, s);
  }
}
