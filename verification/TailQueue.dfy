/** The singly linked tail queue (LDAP_STAILQ): the head keeps the address of the
    link field that the next entry at the tail goes into. */
module TailQueue {
  import opened Sequences

  datatype Ptr = Null | Addr(a: int)

  /** Where a link is kept: in the head (stqh_first) or in an entry (stqe_next). */
  datatype Field = FirstField | NextOf(entry: Ptr)

  /** The link fields of all entries. */
  type Memory = map<Ptr, Ptr>

  ghost function At(s: seq<Ptr>, i: nat): Ptr {
    if i < |s| then s[i] else Null
  }

  ghost predicate LinkedAt(mem: Memory, s: seq<Ptr>, i: nat)
    requires i < |s|
  {
    s[i] in mem && mem[s[i]] == At(s, i + 1)
  }

  ghost predicate Spelled(mem: Memory, s: seq<Ptr>) {
    && Distinct(s) && Null !in s
    && forall i :: 0 <= i < |s| ==> LinkedAt(mem, s, i)
  }

  /** The field that holds the final null link. */
  ghost function FinalField(s: seq<Ptr>): Field {
    if s == [] then FirstField else NextOf(s[|s| - 1])
  }

  /** Linking x in as number k. */
  ghost function LinkedIn(mem: Memory, s: seq<Ptr>, k: nat, x: Ptr): Memory
    requires k <= |s|
  {
    if k == 0 then mem[x := At(s, 0)] else mem[x := At(s, k)][s[k - 1] := x]
  }

  /** Entry k bypassed; it still points where it did. */
  ghost function LinkedOut(mem: Memory, s: seq<Ptr>, k: nat): Memory
    requires k < |s|
  {
    if k == 0 then mem else mem[s[k - 1] := At(s, k + 1)]
  }

  lemma LinkedAtInserted(mem: Memory, s: seq<Ptr>, k: nat, x: Ptr, i: nat)
    requires Spelled(mem, s) && k <= |s| && x !in s && i <= |s|
    ensures LinkedAt(LinkedIn(mem, s, k, x), Inserted(s, k, x), i)
  {
    if i != k {
      var j := if i < k then i else i - 1;
      assert Inserted(s, k, x)[i] == s[j];
      assert LinkedAt(mem, s, j);
      if 0 < k {
        DistinctAt(s, j, k - 1);
      }
    }
    hide Distinct;
  }

  lemma SpelledInserted(mem: Memory, s: seq<Ptr>, k: nat, x: Ptr)
    requires Spelled(mem, s) && k <= |s| && x !in s && x != Null
    ensures Spelled(LinkedIn(mem, s, k, x), Inserted(s, k, x))
  {
    InsertedDistinct(s, k, x);
    hide Distinct, IndexOf, Removed, LinkedIn, LinkedAt, At, FinalField;
    var s' := Inserted(s, k, x);
    var mem' := LinkedIn(mem, s, k, x);
    forall i | 0 <= i < |s'| ensures LinkedAt(mem', s', i) {
      LinkedAtInserted(mem, s, k, x, i);
    }
  }

  /** The two ends of the longer sequence. */
  lemma InsertedEnds(s: seq<Ptr>, k: nat, x: Ptr)
    requires k <= |s|
    ensures At(Inserted(s, k, x), 0) == if k == 0 then x else At(s, 0)
    ensures FinalField(Inserted(s, k, x)) == if k == |s| then NextOf(x) else FinalField(s)
  {
  }

  lemma LinkedAtRemoved(mem: Memory, s: seq<Ptr>, k: nat, i: nat)
    requires Spelled(mem, s) && k < |s| && i < |s| - 1
    ensures LinkedAt(LinkedOut(mem, s, k), Removed(s, k), i)
  {
    var j := if i < k then i else i + 1;
    assert LinkedAt(mem, s, j);
    if 0 < k {
      DistinctAt(s, j, k - 1);
    }
    hide Distinct;
  }

  lemma SpelledRemoved(mem: Memory, s: seq<Ptr>, k: nat)
    requires Spelled(mem, s) && k < |s|
    ensures Spelled(LinkedOut(mem, s, k), Removed(s, k))
  {
    RemovedDistinct(s, k);
    hide Distinct, Inserted, LinkedOut, LinkedAt, At, FinalField;
    var s' := Removed(s, k);
    var mem' := LinkedOut(mem, s, k);
    forall i | 0 <= i < |s'| ensures LinkedAt(mem', s', i) {
      LinkedAtRemoved(mem, s, k, i);
    }
  }

  lemma RemovedEnds(s: seq<Ptr>, k: nat)
    requires k < |s|
    ensures At(Removed(s, k), 0) == if k == 0 then At(s, 1) else At(s, 0)
    ensures FinalField(Removed(s, k)) ==
      if k < |s| - 1 then FinalField(s) else if k == 0 then FirstField else NextOf(s[k - 1])
  {
  }

  /** Dropping the first n entries writes no link at all. */
  lemma SpelledSuffix(mem: Memory, s: seq<Ptr>, n: nat)
    requires Spelled(mem, s) && n <= |s|
    ensures Spelled(mem, s[n..]) && At(s[n..], 0) == At(s, n)
    ensures n < |s| ==> FinalField(s[n..]) == FinalField(s)
  {
    forall i | 0 <= i < |s| - n ensures LinkedAt(mem, s[n..], i) {
      assert LinkedAt(mem, s, n + i);
    }
  }

  /** Queues whose entries are elsewhere do not notice. */
  lemma OtherQueues(mem: Memory, s: seq<Ptr>, k: nat, x: Ptr, t: seq<Ptr>)
    requires Spelled(mem, t) && k <= |s| && x !in t && forall i :: 0 <= i < |s| ==> s[i] !in t
    ensures Spelled(LinkedIn(mem, s, k, x), t)
    ensures k < |s| ==> Spelled(LinkedOut(mem, s, k), t)
  {
    var mem1 := LinkedIn(mem, s, k, x);
    hide Distinct, At;
    forall i | 0 <= i < |t| ensures LinkedAt(mem1, t, i) && (k < |s| ==> LinkedAt(LinkedOut(mem, s, k), t, i)) {
      assert LinkedAt(mem, t, i) && t[i] in t;
    }
  }

  lemma EntryAt(mem: Memory, s: seq<Ptr>, k: nat)
    requires Spelled(mem, s) && k < |s|
    ensures s[k] in mem && mem[s[k]] == At(s, k + 1) && s[k] == At(s, k) && s[k] != Null
    ensures At(s, k + 1) == Null <==> k == |s| - 1
  {
    assert LinkedAt(mem, s, k);
    assert k + 1 < |s| ==> s[k + 1] in s;
  }

  class Entries {
    var mem: Memory
  }

  class TailQ {
    const entries: Entries
    var first: Ptr
    var last: Field
    ghost var items: seq<Ptr>

    ghost predicate Valid()
      reads this, entries
    {
      Null !in entries.mem && Spelled(entries.mem, items) && first == At(items, 0) && last == FinalField(items)
    }

    ghost predicate Fresh(x: Ptr)
      reads this, entries
    {
      x in entries.mem && x !in items
    }

    /** LDAP_STAILQ_INIT */
    constructor (entries: Entries)
      requires Null !in entries.mem
      ensures this.entries == entries && Valid() && items == []
    {
      this.entries := entries;
      first, last := Null, FirstField;
      items := [];
    }

    method PutNext(p: Ptr, q: Ptr)
      requires p in entries.mem
      modifies entries
      ensures entries.mem == old(entries.mem)[p := q]
    {
      entries.mem := entries.mem[p := q];
    }

    /** LDAP_STAILQ_INSERT_HEAD */
    method InsertHead(elm: Ptr)
      requires Valid() && Fresh(elm)
      modifies this, entries
      ensures Valid() && items == [elm] + old(items)
      ensures entries.mem == LinkedIn(old(entries.mem), old(items), 0, elm)
    {
      SpelledInserted(entries.mem, items, 0, elm);
      InsertedEnds(items, 0, elm);
      assert Inserted(items, 0, elm) == [elm] + items;
      assert first == Null <==> items == [] by {
        assert items != [] ==> items[0] in items;
      }
      hide Spelled, Inserted, At, FinalField;
      PutNext(elm, first);
      if entries.mem[elm] == Null {
        last := NextOf(elm);
      }
      first := elm;
      items := [elm] + items;
    }

    /** LDAP_STAILQ_INSERT_TAIL */
    method InsertTail(elm: Ptr)
      requires Valid() && Fresh(elm)
      modifies this, entries
      ensures Valid() && items == old(items) + [elm]
      ensures entries.mem == LinkedIn(old(entries.mem), old(items), |old(items)|, elm)
    {
      ghost var s := items;
      SpelledInserted(entries.mem, s, |s|, elm);
      InsertedEnds(s, |s|, elm);
      assert Inserted(s, |s|, elm) == s + [elm];
      if s != [] {
        EntryAt(entries.mem, s, |s| - 1);
      }
      hide Spelled, Inserted;
      PutNext(elm, Null);
      if last == FirstField {
        first := elm;
      } else {
        PutNext(last.entry, elm);
      }
      last := NextOf(elm);
      items := s + [elm];
    }

    /** LDAP_STAILQ_INSERT_AFTER */
    method InsertAfter(tqelm: Ptr, elm: Ptr)
      requires Valid() && tqelm in items && Fresh(elm)
      modifies this, entries
      ensures Valid() && items == InsertedAfter(old(items), tqelm, elm)
      ensures entries.mem == LinkedIn(old(entries.mem), old(items), IndexOf(old(items), tqelm) + 1, elm)
    {
      ghost var s := items;
      ghost var k: int := IndexOf(s, tqelm) + 1;
      SpelledInserted(entries.mem, s, k, elm);
      InsertedEnds(s, k, elm);
      EntryAt(entries.mem, s, k - 1);
      hide Spelled, Inserted, IndexOf, At, FinalField;
      PutNext(elm, entries.mem[tqelm]);
      if entries.mem[elm] == Null {
        last := NextOf(elm);
      }
      PutNext(tqelm, elm);
      items := Inserted(s, k, elm);
    }

    /** LDAP_STAILQ_REMOVE_HEAD */
    method RemoveHead()
      requires Valid() && items != []
      modifies this
      ensures Valid() && items == old(items)[1..]
    {
      EntryAt(entries.mem, items, 0);
      SpelledSuffix(entries.mem, items, 1);
      hide Spelled, At;
      first := entries.mem[first];
      if first == Null {
        last := FirstField;
      }
      items := items[1..];
    }

    /** LDAP_STAILQ_REMOVE_HEAD_UNTIL */
    method RemoveHeadUntil(elm: Ptr)
      requires Valid() && elm in items
      modifies this
      ensures Valid() && items == old(items)[IndexOf(old(items), elm) + 1..]
    {
      ghost var k: int := IndexOf(items, elm);
      EntryAt(entries.mem, items, k);
      SpelledSuffix(entries.mem, items, k + 1);
      hide Spelled, At, IndexOf;
      first := entries.mem[elm];
      if first == Null {
        last := FirstField;
      }
      items := items[k + 1..];
    }

    /** LDAP_STAILQ_REMOVE, which looks for the entry before. */
    method Remove(elm: Ptr)
      requires Valid() && elm in items
      modifies this, entries
      ensures Valid() && items == Without(old(items), elm)
      ensures entries.mem == LinkedOut(old(entries.mem), old(items), IndexOf(old(items), elm))
    {
      ghost var s := items;
      ghost var k: int := IndexOf(s, elm);
      DistinctAt(s, 0, k);
      EntryAt(entries.mem, s, 0);
      if first == elm {
        assert Removed(s, 0) == s[1..];
        RemoveHead();
      } else {
        var curelm := Before(elm);
        EntryAt(entries.mem, s, k - 1);
        EntryAt(entries.mem, s, k);
        SpelledRemoved(entries.mem, s, k);
        RemovedEnds(s, k);
        hide Spelled, At, Removed, FinalField, IndexOf;
        PutNext(curelm, entries.mem[entries.mem[curelm]]);
        if entries.mem[curelm] == Null {
          last := NextOf(curelm);
        }
        items := Removed(s, k);
      }
    }

    /** The scan: the next link is never null before the entry is found. */
    method Before(elm: Ptr) returns (curelm: Ptr)
      requires Valid() && elm in items && first != elm
      ensures IndexOf(items, elm) > 0 && curelm == items[IndexOf(items, elm) - 1]
    {
      ghost var k: int := IndexOf(items, elm);
      ghost var j := 0;
      EntryAt(entries.mem, items, 0);
      curelm := first;
      while entries.mem[curelm] != elm
        invariant 0 <= j < k && curelm == items[j] && curelm in entries.mem
        decreases k - j
      {
        EntryAt(entries.mem, items, j);
        EntryAt(entries.mem, items, j + 1);
        curelm := entries.mem[curelm];
        j := j + 1;
      }
      EntryAt(entries.mem, items, j);
      DistinctAt(items, j + 1, k);
    }

    /** LDAP_STAILQ_FOREACH */
    method Walk() returns (r: seq<Ptr>)
      requires Valid()
      ensures r == items
    {
      r := [];
      var v := first;
      assert 0 < |items| ==> items[0] in items;
      while v != Null
        invariant |r| <= |items| && r == items[..|r|] && v == At(items, |r|)
        invariant v == Null ==> |r| == |items|
        decreases |items| - |r|
      {
        EntryAt(entries.mem, items, |r|);
        r := r + [v];
        v := entries.mem[v];
        assert |r| < |items| ==> items[|r|] in items;
      }
    }

    method Do(op: TailOp)
      requires Valid() && Legal(entries.mem.Keys, items, op)
      modifies this, entries
      ensures Valid() && items == After(old(items), op) && entries.mem.Keys == old(entries.mem.Keys)
    {
      KeysKept(entries.mem, items, op);
      hide Spelled, Inserted, Removed, At, InsertedAfter, Without, LinkedIn, LinkedOut;
      if op.InsHead? {
        InsertHead(op.x);
      } else if op.InsTail? {
        InsertTail(op.x);
      } else if op.InsAfter? {
        InsertAfter(op.y, op.x);
      } else if op.RemHead? {
        RemoveHead();
      } else if op.RemHeadUntil? {
        RemoveHeadUntil(op.y);
      } else {
        Remove(op.y);
      }
    }

    /** After any run, walking the links gives the sequence, and the tail pointer
        addresses the field that holds the final null link. */
    method Run(ops: seq<TailOp>) returns (walk: seq<Ptr>)
      requires Valid() && LegalRun(entries.mem.Keys, items, ops)
      modifies this, entries
      ensures Valid() && items == AfterAll(old(entries.mem.Keys), old(items), ops)
      ensures walk == items && last == FinalField(items)
    {
      var n := 0;
      while n < |ops|
        invariant n <= |ops| && Valid() && entries.mem.Keys == old(entries.mem.Keys)
        invariant LegalRun(entries.mem.Keys, items, ops[n..])
        invariant AfterAll(entries.mem.Keys, items, ops[n..]) == AfterAll(old(entries.mem.Keys), old(items), ops)
      {
        Do(ops[n]);
        assert ops[n..][1..] == ops[n + 1..];
        n := n + 1;
      }
      walk := Walk();
    }
  }

  datatype TailOp =
    | InsHead(x: Ptr)
    | InsTail(x: Ptr)
    | InsAfter(y: Ptr, x: Ptr)
    | RemHead
    | RemHeadUntil(y: Ptr)
    | Rem(y: Ptr)

  /** What the macros ask of their callers. */
  ghost predicate Legal(entries: set<Ptr>, s: seq<Ptr>, op: TailOp) {
    && (op.InsHead? || op.InsTail? || op.InsAfter? ==> op.x in entries && op.x !in s)
    && (op.InsAfter? || op.RemHeadUntil? || op.Rem? ==> op.y in s)
    && (op.RemHead? ==> s != [])
  }

  ghost function After(s: seq<Ptr>, op: TailOp): seq<Ptr>
    requires op.InsAfter? || op.RemHeadUntil? || op.Rem? ==> op.y in s
    requires op.RemHead? ==> s != []
  {
    match op
    case InsHead(x) => [x] + s
    case InsTail(x) => s + [x]
    case InsAfter(y, x) => InsertedAfter(s, y, x)
    case RemHead => s[1..]
    case RemHeadUntil(y) => s[IndexOf(s, y) + 1..]
    case Rem(y) => Without(s, y)
  }

  lemma KeysKept(mem: Memory, s: seq<Ptr>, op: TailOp)
    requires Spelled(mem, s) && Legal(mem.Keys, s, op)
    ensures op.InsHead? ==> LinkedIn(mem, s, 0, op.x).Keys == mem.Keys
    ensures op.InsTail? ==> LinkedIn(mem, s, |s|, op.x).Keys == mem.Keys
    ensures op.InsAfter? ==> LinkedIn(mem, s, IndexOf(s, op.y) + 1, op.x).Keys == mem.Keys
    ensures op.Rem? ==> LinkedOut(mem, s, IndexOf(s, op.y)).Keys == mem.Keys
  {
    var k := if op.InsAfter? || op.Rem? then IndexOf(s, op.y) else |s| - 1;
    assert 0 < k <= |s| ==> LinkedAt(mem, s, k - 1);
    assert 0 <= k < |s| ==> LinkedAt(mem, s, k);
    hide Distinct, IndexOf, At;
  }

  ghost predicate LegalRun(entries: set<Ptr>, s: seq<Ptr>, ops: seq<TailOp>)
    decreases |ops|
  {
    ops != [] ==> Legal(entries, s, ops[0]) && LegalRun(entries, After(s, ops[0]), ops[1..])
  }

  ghost function AfterAll(entries: set<Ptr>, s: seq<Ptr>, ops: seq<TailOp>): seq<Ptr>
    requires LegalRun(entries, s, ops)
    decreases |ops|
  {
    if ops == [] then s else AfterAll(entries, After(s, ops[0]), ops[1..])
  }
}
