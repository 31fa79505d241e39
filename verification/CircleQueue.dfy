/** The circular doubly linked queue (LDAP_CIRCLEQ): link fields inside the entries,
    the head standing before the first entry and after the last one. */
module CircleQueue {
  import opened Sequences

  /** What a link holds: nothing yet, the address of the head, or that of an entry. */
  datatype Ptr = Null | ToHead | Addr(a: int)

  /** LDAP_CIRCLEQ_ENTRY */
  datatype Links = Links(next: Ptr, prev: Ptr)

  type Memory = map<Ptr, Links>

  ghost function At(s: seq<Ptr>, i: int): Ptr {
    if 0 <= i < |s| then s[i] else ToHead
  }

  ghost predicate LinkedAt(mem: Memory, s: seq<Ptr>, i: nat)
    requires i < |s|
  {
    s[i] in mem && mem[s[i]] == Links(At(s, i + 1), At(s, i - 1))
  }

  /** The links spell out the sequence, in both directions. */
  ghost predicate Spelled(mem: Memory, s: seq<Ptr>) {
    && Distinct(s) && ToHead !in s
    && forall i :: 0 <= i < |s| ==> LinkedAt(mem, s, i)
  }

  lemma AtInserted(s: seq<Ptr>, k: nat, x: Ptr, i: int)
    requires k <= |s| && -1 <= i <= |s| + 1
    ensures At(Inserted(s, k, x), i) == if i < k then At(s, i) else if i == k then x else At(s, i - 1)
  {
  }

  function SetNext(mem: Memory, p: Ptr, q: Ptr): Memory {
    if p in mem then mem[p := mem[p].(next := q)] else mem
  }

  function SetPrev(mem: Memory, p: Ptr, q: Ptr): Memory {
    if p in mem then mem[p := mem[p].(prev := q)] else mem
  }

  /** Linking x in between two neighbours. */
  ghost function LinkedIn(mem: Memory, left: Ptr, x: Ptr, right: Ptr): Memory {
    SetNext(SetPrev(mem[x := Links(right, left)], right, x), left, x)
  }

  /** The links of an entry that was there before. */
  lemma OldLinks(mem: Memory, s: seq<Ptr>, k: nat, x: Ptr, j: nat)
    requires Spelled(mem, s) && ToHead !in mem && k <= |s| && x !in s && x != ToHead && j < |s|
    ensures s[j] in LinkedIn(mem, At(s, k - 1), x, At(s, k))
    ensures LinkedIn(mem, At(s, k - 1), x, At(s, k))[s[j]] ==
      Links(if j == k - 1 then x else At(s, j + 1), if j == k then x else At(s, j - 1))
  {
    assert LinkedAt(mem, s, j);
    if k < |s| {
      assert LinkedAt(mem, s, k);
      DistinctAt(s, j, k);
    }
    if 0 < k {
      DistinctAt(s, j, k - 1);
    }
    hide Distinct;
  }

  lemma NewLinks(mem: Memory, s: seq<Ptr>, k: nat, x: Ptr)
    requires ToHead !in mem && k <= |s| && x !in s && x != ToHead
    ensures x in LinkedIn(mem, At(s, k - 1), x, At(s, k))
    ensures LinkedIn(mem, At(s, k - 1), x, At(s, k))[x] == Links(At(s, k), At(s, k - 1))
  {
  }

  lemma LinkedAtInserted(mem: Memory, s: seq<Ptr>, k: nat, x: Ptr, i: nat)
    requires Spelled(mem, s) && ToHead !in mem && k <= |s| && x !in s && x != ToHead && i <= |s|
    ensures LinkedAt(LinkedIn(mem, At(s, k - 1), x, At(s, k)), Inserted(s, k, x), i)
  {
    AtInserted(s, k, x, i - 1);
    AtInserted(s, k, x, i + 1);
    if i == k {
      NewLinks(mem, s, k, x);
    } else {
      var j := if i < k then i else i - 1;
      assert Inserted(s, k, x)[i] == s[j];
      OldLinks(mem, s, k, x, j);
    }
    hide Spelled, Inserted, LinkedIn, At;
  }

  lemma SpelledInserted(mem: Memory, s: seq<Ptr>, k: nat, x: Ptr)
    requires Spelled(mem, s) && ToHead !in mem && k <= |s| && x !in s && x != ToHead
    ensures Spelled(LinkedIn(mem, At(s, k - 1), x, At(s, k)), Inserted(s, k, x))
  {
    InsertedDistinct(s, k, x);
    var s' := Inserted(s, k, x);
    var mem' := LinkedIn(mem, At(s, k - 1), x, At(s, k));
    hide Distinct, IndexOf, Removed, LinkedIn, At, LinkedAt;
    forall i | 0 <= i < |s'| ensures LinkedAt(mem', s', i) {
      LinkedAtInserted(mem, s, k, x, i);
    }
  }

  /** Taking entry k out, its two neighbours now linked to each other. */
  ghost function LinkedOut(mem: Memory, left: Ptr, right: Ptr): Memory {
    SetNext(SetPrev(mem, right, left), left, right)
  }

  lemma AtRemoved(s: seq<Ptr>, k: nat, i: int)
    requires k < |s| && -1 <= i < |s|
    ensures At(Removed(s, k), i) == if i < k then At(s, i) else At(s, i + 1)
  {
  }

  lemma LinksLeft(mem: Memory, s: seq<Ptr>, k: nat, j: nat)
    requires Spelled(mem, s) && ToHead !in mem && k < |s| && j < |s| && j != k
    ensures s[j] in LinkedOut(mem, At(s, k - 1), At(s, k + 1))
    ensures LinkedOut(mem, At(s, k - 1), At(s, k + 1))[s[j]] ==
      Links(if j == k - 1 then At(s, k + 1) else At(s, j + 1), if j == k + 1 then At(s, k - 1) else At(s, j - 1))
  {
    assert LinkedAt(mem, s, j);
    if k < |s| - 1 {
      DistinctAt(s, j, k + 1);
    }
    if 0 < k {
      DistinctAt(s, j, k - 1);
    }
    hide Distinct;
  }

  lemma SpelledRemoved(mem: Memory, s: seq<Ptr>, k: nat)
    requires Spelled(mem, s) && ToHead !in mem && k < |s|
    ensures Spelled(LinkedOut(mem, At(s, k - 1), At(s, k + 1)), Removed(s, k))
  {
    RemovedDistinct(s, k);
    hide Distinct, Inserted, LinkedOut, At;
    var s' := Removed(s, k);
    var mem' := LinkedOut(mem, At(s, k - 1), At(s, k + 1));
    forall i | 0 <= i < |s'| ensures LinkedAt(mem', s', i) {
      AtRemoved(s, k, i - 1);
      AtRemoved(s, k, i + 1);
      LinksLeft(mem, s, k, if i < k then i else i + 1);
    }
  }

  /** What an insertion as number k finds in the links around it, and the ends after it. */
  lemma Neighbours(mem: Memory, s: seq<Ptr>, k: nat, x: Ptr)
    requires Spelled(mem, s) && ToHead !in mem && k <= |s| && x !in s
    ensures 0 < k ==> s[k - 1] == At(s, k - 1) && s[k - 1] in mem && mem[s[k - 1]].next == At(s, k)
    ensures k < |s| ==> s[k] == At(s, k) && s[k] in mem && mem[s[k]].prev == At(s, k - 1)
    ensures At(s, k) == ToHead <==> k == |s|
    ensures At(s, k - 1) == ToHead <==> k == 0
    ensures s != [] ==> At(s, 0) in mem && At(s, |s| - 1) in mem
    ensures s == [] <==> At(s, 0) == ToHead
    ensures s == [] <==> At(s, |s| - 1) == ToHead
    ensures At(Inserted(s, k, x), 0) == if k == 0 then x else At(s, 0)
    ensures At(Inserted(s, k, x), |s|) == if k == |s| then x else At(s, |s| - 1)
    ensures |Inserted(s, k, x)| == |s| + 1
  {
    assert 0 < k ==> LinkedAt(mem, s, k - 1);
    assert k < |s| ==> LinkedAt(mem, s, k);
    assert s != [] ==> LinkedAt(mem, s, 0) && LinkedAt(mem, s, |s| - 1);
  }

  /** The same links, written in the order of the program. */
  lemma LinkedInSteps(mem: Memory, left: Ptr, x: Ptr, right: Ptr)
    requires x in mem && ToHead !in mem
    ensures var m := SetPrev(SetNext(mem, x, right), x, left); var done := LinkedIn(mem, left, x, right);
      && m == mem[x := Links(right, left)]
      && SetNext(SetPrev(m, right, x), left, x) == SetPrev(SetNext(m, left, x), right, x) == done
      && (left == ToHead ==> SetPrev(m, right, x) == done)
      && (right == ToHead ==> SetNext(m, left, x) == done)
      && (left == ToHead && right == ToHead ==> m == done)
  {
  }

  lemma NeighboursLeft(mem: Memory, s: seq<Ptr>, k: nat)
    requires Spelled(mem, s) && ToHead !in mem && k < |s|
    ensures s[k] in mem && mem[s[k]] == Links(At(s, k + 1), At(s, k - 1))
    ensures if k == |s| - 1 then At(s, k + 1) == ToHead else At(s, k + 1) in mem && At(s, k + 1) != s[k]
    ensures if k == 0 then At(s, k - 1) == ToHead else At(s, k - 1) in mem && At(s, k - 1) != s[k]
    ensures At(Removed(s, k), 0) == if k == 0 then At(s, 1) else At(s, 0)
    ensures At(Removed(s, k), |s| - 2) == if k == |s| - 1 then At(s, |s| - 2) else At(s, |s| - 1)
    ensures |Removed(s, k)| == |s| - 1
  {
    assert LinkedAt(mem, s, k);
    assert 0 < k ==> LinkedAt(mem, s, k - 1);
    assert k < |s| - 1 ==> LinkedAt(mem, s, k + 1);
  }

  /** Queues whose entries are elsewhere do not notice. */
  lemma OtherQueues(mem: Memory, t: seq<Ptr>, left: Ptr, x: Ptr, right: Ptr)
    requires Spelled(mem, t) && left !in t && x !in t && right !in t
    ensures Spelled(LinkedIn(mem, left, x, right), t) && Spelled(LinkedOut(mem, left, right), t)
  {
    var mem1, mem2 := LinkedIn(mem, left, x, right), LinkedOut(mem, left, right);
    hide Distinct, At;
    forall i | 0 <= i < |t| ensures LinkedAt(mem1, t, i) && LinkedAt(mem2, t, i) {
      assert LinkedAt(mem, t, i) && t[i] in t;
    }
  }

  /** The memory that holds the link fields of all entries. */
  class Entries {
    var mem: Memory

    ghost predicate Valid()
      reads this
    {
      Null !in mem && ToHead !in mem
    }

    method PutNext(p: Ptr, q: Ptr)
      requires p in mem
      modifies this
      ensures mem == SetNext(old(mem), p, q)
    {
      mem := mem[p := mem[p].(next := q)];
    }

    method PutPrev(p: Ptr, q: Ptr)
      requires p in mem
      modifies this
      ensures mem == SetPrev(old(mem), p, q)
    {
      mem := mem[p := mem[p].(prev := q)];
    }
  }

  class CircleQ {
    const entries: Entries
    var first: Ptr
    var last: Ptr
    ghost var items: seq<Ptr>

    ghost predicate Valid()
      reads this, entries
    {
      && entries.Valid() && Spelled(entries.mem, items)
      && first == At(items, 0) && last == At(items, |items| - 1)
    }

    /** LDAP_CIRCLEQ_INIT */
    constructor (entries: Entries)
      requires entries.Valid()
      ensures this.entries == entries && Valid() && items == []
    {
      this.entries := entries;
      first, last := ToHead, ToHead;
      items := [];
    }

    ghost predicate Fresh(x: Ptr)
      reads this, entries
    {
      x in entries.mem && x !in items
    }

    /** LDAP_CIRCLEQ_INSERT_AFTER */
    method InsertAfter(listelm: Ptr, elm: Ptr)
      requires Valid() && listelm in items && Fresh(elm)
      modifies this, entries
      ensures Valid() && items == InsertedAfter(old(items), listelm, elm)
      ensures entries.mem == LinkedIn(old(entries.mem), listelm, elm, At(old(items), IndexOf(old(items), listelm) + 1))
    {
      ghost var s := items;
      ghost var k: int := IndexOf(s, listelm) + 1;
      LinkedInSteps(entries.mem, listelm, elm, At(s, k));
      Neighbours(entries.mem, s, k, elm);
      SpelledInserted(entries.mem, s, k, elm);
      hide Spelled, Inserted, IndexOf, At, LinkedIn;
      entries.PutNext(elm, entries.mem[listelm].next);
      entries.PutPrev(elm, listelm);
      if entries.mem[listelm].next == ToHead {
        last := elm;
      } else {
        entries.PutPrev(entries.mem[listelm].next, elm);
      }
      entries.PutNext(listelm, elm);
      items := Inserted(s, k, elm);
    }

    /** LDAP_CIRCLEQ_INSERT_BEFORE */
    method InsertBefore(listelm: Ptr, elm: Ptr)
      requires Valid() && listelm in items && Fresh(elm)
      modifies this, entries
      ensures Valid() && items == InsertedBefore(old(items), listelm, elm)
      ensures entries.mem == LinkedIn(old(entries.mem), At(old(items), IndexOf(old(items), listelm) - 1), elm, listelm)
    {
      ghost var s := items;
      ghost var k: int := IndexOf(s, listelm);
      LinkedInSteps(entries.mem, At(s, k - 1), elm, listelm);
      Neighbours(entries.mem, s, k, elm);
      SpelledInserted(entries.mem, s, k, elm);
      hide Spelled, Inserted, IndexOf, At, LinkedIn;
      entries.PutNext(elm, listelm);
      entries.PutPrev(elm, entries.mem[listelm].prev);
      if entries.mem[listelm].prev == ToHead {
        first := elm;
      } else {
        entries.PutNext(entries.mem[listelm].prev, elm);
      }
      entries.PutPrev(listelm, elm);
      items := Inserted(s, k, elm);
    }

    /** LDAP_CIRCLEQ_INSERT_HEAD */
    method InsertHead(elm: Ptr)
      requires Valid() && Fresh(elm)
      modifies this, entries
      ensures Valid() && items == [elm] + old(items)
      ensures entries.mem == LinkedIn(old(entries.mem), ToHead, elm, At(old(items), 0))
    {
      ghost var s := items;
      LinkedInSteps(entries.mem, ToHead, elm, At(s, 0));
      Neighbours(entries.mem, s, 0, elm);
      SpelledInserted(entries.mem, s, 0, elm);
      assert Inserted(s, 0, elm) == [elm] + s;
      hide Spelled, Inserted, At, LinkedIn;
      entries.PutNext(elm, first);
      entries.PutPrev(elm, ToHead);
      if last == ToHead {
        last := elm;
      } else {
        entries.PutPrev(first, elm);
      }
      first := elm;
      items := Inserted(s, 0, elm);
    }

    /** LDAP_CIRCLEQ_INSERT_TAIL */
    method InsertTail(elm: Ptr)
      requires Valid() && Fresh(elm)
      modifies this, entries
      ensures Valid() && items == old(items) + [elm]
      ensures entries.mem == LinkedIn(old(entries.mem), At(old(items), |old(items)| - 1), elm, ToHead)
    {
      ghost var s := items;
      LinkedInSteps(entries.mem, At(s, |s| - 1), elm, ToHead);
      Neighbours(entries.mem, s, |s|, elm);
      SpelledInserted(entries.mem, s, |s|, elm);
      assert Inserted(s, |s|, elm) == s + [elm];
      hide Spelled, Inserted, At, LinkedIn;
      entries.PutNext(elm, ToHead);
      entries.PutPrev(elm, last);
      if first == ToHead {
        first := elm;
      } else {
        entries.PutNext(last, elm);
      }
      last := elm;
      items := Inserted(s, |s|, elm);
    }

    /** LDAP_CIRCLEQ_REMOVE */
    method Remove(elm: Ptr)
      requires Valid() && elm in items
      modifies this, entries
      ensures Valid() && items == Without(old(items), elm)
      ensures var k := IndexOf(old(items), elm);
        entries.mem == LinkedOut(old(entries.mem), At(old(items), k - 1), At(old(items), k + 1))
    {
      ghost var s := items;
      ghost var k: int := IndexOf(s, elm);
      NeighboursLeft(entries.mem, s, k);
      SpelledRemoved(entries.mem, s, k);
      hide Spelled, Removed, IndexOf, At;
      if entries.mem[elm].next == ToHead {
        last := entries.mem[elm].prev;
      } else {
        entries.PutPrev(entries.mem[elm].next, entries.mem[elm].prev);
      }
      if entries.mem[elm].prev == ToHead {
        first := entries.mem[elm].next;
      } else {
        entries.PutNext(entries.mem[elm].prev, entries.mem[elm].next);
      }
      items := Removed(s, k);
    }

    /** LDAP_CIRCLEQ_FOREACH */
    method Forward() returns (r: seq<Ptr>)
      requires Valid()
      ensures r == items
    {
      r := [];
      var v := first;
      while v != ToHead
        invariant |r| <= |items| && r == items[..|r|] && v == At(items, |r|)
        decreases |items| - |r|
      {
        assert LinkedAt(entries.mem, items, |r|);
        r := r + [v];
        v := entries.mem[v].next;
      }
    }

    /** LDAP_CIRCLEQ_FOREACH_REVERSE */
    method Backward() returns (r: seq<Ptr>)
      requires Valid()
      ensures r == Reversed(items)
    {
      r := [];
      var v := last;
      ghost var k: int := |items|;
      assert 0 < k ==> items[k - 1] in items;
      while v != ToHead
        invariant 0 <= k <= |items| && r == Reversed(items[k..]) && v == At(items, k - 1)
        invariant v == ToHead ==> k == 0
        decreases k
      {
        assert LinkedAt(entries.mem, items, k - 1);
        k := k - 1;
        assert items[k..][1..] == items[k + 1..];
        r := r + [v];
        v := entries.mem[v].prev;
        assert 0 < k ==> items[k - 1] in items;
      }
      assert items[0..] == items;
    }

    method Do(op: CircleOp)
      requires Valid() && CircleLegal(entries.mem.Keys, items, op)
      modifies this, entries
      ensures Valid() && items == CircleAfter(old(items), op) && entries.mem.Keys == old(entries.mem.Keys)
    {
      hide Spelled, Inserted, Removed, At, InsertedAfter, InsertedBefore, Without;
      if op.InsHead? {
        InsertHead(op.x);
      } else if op.InsTail? {
        InsertTail(op.x);
      } else if op.InsAfter? {
        InsertAfter(op.y, op.x);
      } else if op.InsBefore? {
        InsertBefore(op.y, op.x);
      } else {
        Remove(op.y);
      }
    }

    /** After any run, walking the links gives the sequence, and walking them the
        other way gives its reverse. */
    method Run(ops: seq<CircleOp>) returns (forwards: seq<Ptr>, backwards: seq<Ptr>)
      requires Valid() && CircleLegalRun(entries.mem.Keys, items, ops)
      modifies this, entries
      ensures Valid() && items == CircleRun(old(entries.mem.Keys), old(items), ops)
      ensures forwards == items && backwards == Reversed(items)
    {
      var n := 0;
      while n < |ops|
        invariant n <= |ops| && Valid() && entries.mem.Keys == old(entries.mem.Keys)
        invariant CircleLegalRun(entries.mem.Keys, items, ops[n..])
        invariant CircleRun(entries.mem.Keys, items, ops[n..]) == CircleRun(old(entries.mem.Keys), old(items), ops)
      {
        Do(ops[n]);
        assert ops[n..][1..] == ops[n + 1..];
        n := n + 1;
      }
      forwards := Forward();
      backwards := Backward();
    }
  }

  datatype CircleOp =
    | InsHead(x: Ptr)
    | InsTail(x: Ptr)
    | InsAfter(y: Ptr, x: Ptr)
    | InsBefore(y: Ptr, x: Ptr)
    | Rem(y: Ptr)

  /** What the macros ask of their callers: a new entry is an entry and not yet in
      the queue, and the other one is in it. */
  ghost predicate CircleLegal(entries: set<Ptr>, s: seq<Ptr>, op: CircleOp) {
    && (!op.Rem? ==> op.x in entries && op.x !in s)
    && (op.InsAfter? || op.InsBefore? || op.Rem? ==> op.y in s)
  }

  ghost function CircleAfter(s: seq<Ptr>, op: CircleOp): seq<Ptr>
    requires op.InsAfter? || op.InsBefore? || op.Rem? ==> op.y in s
  {
    match op
    case InsHead(x) => [x] + s
    case InsTail(x) => s + [x]
    case InsAfter(y, x) => InsertedAfter(s, y, x)
    case InsBefore(y, x) => InsertedBefore(s, y, x)
    case Rem(y) => Without(s, y)
  }

  ghost predicate CircleLegalRun(entries: set<Ptr>, s: seq<Ptr>, ops: seq<CircleOp>)
    decreases |ops|
  {
    ops != [] ==> CircleLegal(entries, s, ops[0]) && CircleLegalRun(entries, CircleAfter(s, ops[0]), ops[1..])
  }

  ghost function CircleRun(entries: set<Ptr>, s: seq<Ptr>, ops: seq<CircleOp>): seq<Ptr>
    requires CircleLegalRun(entries, s, ops)
    decreases |ops|
  {
    if ops == [] then s else CircleRun(entries, CircleAfter(s, ops[0]), ops[1..])
  }

  /** On the links, too: only the entry itself remembers where it was. */
  lemma LinksRestored(mem: Memory, left: Ptr, x: Ptr, right: Ptr)
    requires x != left && x != right
    requires left in mem ==> mem[left].next == right
    requires right in mem ==> mem[right].prev == left
    ensures LinkedOut(LinkedIn(mem, left, x, right), left, right) - {x} == mem - {x}
  {
  }
}
