/** Sequences without repetition: what a linked queue stands for. */
module Sequences {

  ghost predicate Distinct<T>(s: seq<T>) {
    forall i, j :: 0 <= i < j < |s| ==> s[i] != s[j]
  }

  ghost function IndexOf<T>(s: seq<T>, x: T): (k: nat)
    requires x in s
    ensures k < |s| && s[k] == x
  {
    if s[0] == x then 0 else 1 + IndexOf(s[1..], x)
  }

  /** x put in as number k. */
  ghost function Inserted<T>(s: seq<T>, k: nat, x: T): (r: seq<T>)
    requires k <= |s|
    ensures |r| == |s| + 1 && r[k] == x
  {
    s[..k] + [x] + s[k..]
  }

  ghost function Removed<T>(s: seq<T>, k: nat): seq<T>
    requires k < |s|
  {
    s[..k] + s[k + 1..]
  }

  ghost function Reversed<T>(s: seq<T>): seq<T> {
    if s == [] then [] else Reversed(s[1..]) + [s[0]]
  }

  lemma InsertedDistinct<T>(s: seq<T>, k: nat, x: T)
    requires Distinct(s) && k <= |s| && x !in s
    ensures Distinct(Inserted(s, k, x)) && IndexOf(Inserted(s, k, x), x) == k
    ensures Removed(Inserted(s, k, x), k) == s
  {
  }

  lemma DistinctAt<T>(s: seq<T>, i: nat, j: nat)
    requires Distinct(s) && i < |s| && j < |s|
    ensures s[i] == s[j] <==> i == j
  {
  }

  lemma RemovedDistinct<T>(s: seq<T>, k: nat)
    requires Distinct(s) && k < |s|
    ensures Distinct(Removed(s, k)) && s[k] !in Removed(s, k)
    ensures Inserted(Removed(s, k), k, s[k]) == s
  {
  }

  ghost function InsertedAfter<T>(s: seq<T>, y: T, x: T): (r: seq<T>)
    requires y in s
    ensures var k := IndexOf(s, y); |r| == |s| + 1 && r[k] == y && r[k + 1] == x
  {
    Inserted(s, IndexOf(s, y) + 1, x)
  }

  ghost function InsertedBefore<T>(s: seq<T>, y: T, x: T): (r: seq<T>)
    requires y in s
    ensures var k := IndexOf(s, y); |r| == |s| + 1 && r[k] == x && r[k + 1] == y
  {
    Inserted(s, IndexOf(s, y), x)
  }

  ghost function Without<T>(s: seq<T>, x: T): seq<T>
    requires x in s
  {
    Removed(s, IndexOf(s, x))
  }
}
