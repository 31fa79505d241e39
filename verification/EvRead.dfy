/** Making room at the end of an evbuffer, and reading into it. */
module EvRead {
  import opened Segments
  import opened EvBuffers
  import opened EvSplice

  const EVBUFFER_MAX_READ := 4096
  const NUM_READ_IOVEC := 4
  const MAX_TO_COPY_IN_EXPAND := 4096

  // ----- the chunks that can take more bytes

  /** The chunks to be written to, in order, when `data` are those with data and
      `spare` the empty ones: the last one with data, if it has room left, and
      the empty ones. */
  ghost function Writable(mem: Memory, data: Cells, spare: Cells): Cells {
    if data.Cons? && LastOf(data) in mem && mem[LastOf(data)].SpaceLen() != 0
    then Cons(LastOf(data), [], spare)
    else spare
  }

  /** At most n of the chunks cs, each with room, hold `need` more bytes. */
  ghost predicate Ready(mem: Memory, cs: Cells, need: int, n: nat)
    decreases n
  {
    need > 0 ==>
      && 0 < n && cs.Cons? && cs.p in mem && 0 < mem[cs.p].SpaceLen()
      && Ready(mem, cs.tail, need - mem[cs.p].SpaceLen(), n - 1)
  }

  ghost function Len(cs: Cells): nat {
    if cs.Nil? then 0 else 1 + Len(cs.tail)
  }

  /** The room in all of the chunks cs. */
  ghost function Room(mem: Memory, cs: Cells): int {
    if cs.Nil? then 0 else (if cs.p in mem then mem[cs.p].SpaceLen() else 0) + Room(mem, cs.tail)
  }

  ghost predicate AllRoom(mem: Memory, cs: Cells) {
    cs.Cons? ==> cs.p in mem && 0 < mem[cs.p].SpaceLen() && AllRoom(mem, cs.tail)
  }

  lemma {:induction false} ReadyCat(mem: Memory, a: Cells, b: Cells, need: int, n: nat)
    requires AllRoom(mem, a) && Len(a) <= n && Ready(mem, b, need - Room(mem, a), n - Len(a))
    ensures Ready(mem, Cat(a, b), need, n)
    decreases a
  {
    if a.Cons? {
      ReadyCat(mem, a.tail, b, need - mem[a.p].SpaceLen(), n - 1);
    }
  }

  /** Chunks that are not touched keep their room. */
  lemma {:induction false} RoomFrame(mem: Memory, mem': Memory, cs: Cells)
    requires forall r :: r in Ptrs(cs) && r in mem ==> r in mem' && mem'[r].SpaceLen() == mem[r].SpaceLen()
    requires AllRoom(mem, cs)
    ensures AllRoom(mem', cs) && Room(mem', cs) == Room(mem, cs)
  {
    if cs.Cons? {
      RoomFrame(mem, mem', cs.tail);
    }
  }

  lemma {:induction false} RoomSnoc(mem: Memory, a: Cells, p: Ptr)
    requires AllRoom(mem, a) && p in mem && 0 < mem[p].SpaceLen()
    ensures var cs := Cat(a, Cons(p, [], Nil));
      AllRoom(mem, cs) && Room(mem, cs) == Room(mem, a) + mem[p].SpaceLen() && Len(cs) == Len(a) + 1
  {
    if a.Cons? {
      RoomSnoc(mem, a.tail, p);
    }
  }

  // ----- _evbuffer_expand_fast

  /** The empty chunk reached behind the empty chunks sp. */
  lemma EmptyAt(mem: Memory, p: Ptr, last: Ptr, lwd: Link, data: Cells, spare: Cells, sp: Cells, todo: Cells)
    requires Layout(mem, p, last, lwd, data, spare) && spare == Cat(sp, todo) && todo.Cons?
    ensures Cat(data, spare) == Cat(Cat(data, sp), todo)
    ensures todo.p !in Ptrs(Cat(data, sp)) && todo.p !in Ptrs(data) && todo.p !in Ptrs(sp)
    ensures Ptrs(todo.tail) !! Ptrs(Cat(data, sp)) && todo.p !in Ptrs(todo.tail)
    ensures todo.p in Ptrs(Cat(data, spare)) && todo.data == []
    ensures Seg(mem, todo.p, todo, Null) && todo.p != Null
  {
    EmptyCells(data, sp, todo);
    SegCat(mem, p, Cat(data, sp), todo, Null);
    hide Cat, NoDup, AllEmpty, Ptrs, LwdOf, LastOf;
  }

  lemma EmptyCells(data: Cells, sp: Cells, todo: Cells)
    requires NoDup(Cat(data, Cat(sp, todo))) && AllEmpty(Cat(sp, todo)) && todo.Cons?
    ensures Cat(data, Cat(sp, todo)) == Cat(Cat(data, sp), todo)
    ensures todo.p !in Ptrs(Cat(data, sp)) && todo.p !in Ptrs(data) && todo.p !in Ptrs(sp)
    ensures Ptrs(todo.tail) !! Ptrs(Cat(data, sp)) && todo.p !in Ptrs(todo.tail)
    ensures todo.p in Ptrs(Cat(data, Cat(sp, todo))) && todo.data == []
  {
    CatAssoc(data, sp, todo);
    CatParts(data, sp);
    CatParts(sp, todo);
    CatParts(Cat(data, sp), todo);
  }

  /** An empty chunk loses its misalignment; nothing else changes. */
  lemma Realigned(mem: Memory, p: Ptr, last: Ptr, lwd: Link, data: Cells, spare: Cells, sp: Cells, todo: Cells)
    requires Layout(mem, p, last, lwd, data, spare) && spare == Cat(sp, todo) && todo.Cons?
    ensures todo.p in mem && mem[todo.p].off == 0 && 0 < |mem[todo.p].buffer|
    ensures mem[todo.p].next == Head(todo.tail, Null) && (todo.tail.Cons? ==> todo.tail.p != Null)
    ensures var mem' := mem[todo.p := mem[todo.p].(misalign := 0)];
      && Layout(mem', p, last, lwd, data, spare)
      && Swaps(mem, Ptrs(Cat(data, spare)), mem', Ptrs(Cat(data, spare)))
  {
    EmptyAt(mem, p, last, lwd, data, spare, sp, todo);
    var ch := mem[todo.p].(misalign := 0);
    SegWrite(mem, p, Cat(data, sp), todo, Null, ch, [], todo.tail);
    SwapsOne(mem, Ptrs(Cat(data, spare)), todo.p, ch);
  }

  /** What is known in the loop once the last chunk with data is behind it: sp are
      the empty chunks seen, used the number of chunks with room and avail their
      room. */
  ghost predicate Counted(mem: Memory, data: Cells, spare: Cells, sp: Cells, todo: Cells, avail: int, used: nat) {
    var seen := Writable(mem, data, sp);
    && spare == Cat(sp, todo)
    && AllRoom(mem, seen) && Room(mem, seen) == avail && Len(seen) == used
  }

  lemma CountOne(mem: Memory, mem': Memory, data: Cells, spare: Cells, sp: Cells, todo: Cells, avail: int, used: nat)
    requires Counted(mem, data, spare, sp, todo, avail, used) && todo.Cons? && todo.data == []
    requires todo.p in mem && mem' == mem[todo.p := mem[todo.p].(misalign := 0)]
    requires todo.p !in Ptrs(data) && todo.p !in Ptrs(sp) && mem[todo.p].off == 0 && 0 < |mem[todo.p].buffer|
    ensures Counted(mem', data, spare, Cat(sp, Cons(todo.p, [], Nil)), todo.tail, avail + |mem[todo.p].buffer|, used + 1)
  {
    var seen, c := Writable(mem, data, sp), Cons(todo.p, [], Nil);
    if data.Cons? {
      LastIn(data);
    }
    RoomFrame(mem, mem', seen);
    RoomSnoc(mem', seen, todo.p);
    CatAssoc(sp, c, todo.tail);
  }

  /** The window of the last chunk with data fits its memory. */
  lemma LastFits(mem: Memory, p: Ptr, data: Cells, q: Ptr)
    requires Seg(mem, p, data, q) && data.Cons?
    ensures LastOf(data) in mem && 0 <= mem[LastOf(data)].SpaceLen() && 0 < |mem[LastOf(data)].buffer|
  {
    var front, d := SplitLast(data);
    SegCat(mem, p, front, Cons(LastOf(data), d, Nil), q);
  }

  /** The case of the loop below for a chunk without data. */
  method CountEmpty(buf: EvBuffer, chain: Ptr, avail0: nat, ghost sp: Cells, ghost todo: Cells, ghost used: nat)
    returns (avail: nat, next: Ptr)
    requires buf.Valid() && todo.Cons? && chain == todo.p
    requires Counted(buf.heap.mem, buf.data, buf.spare, sp, todo, avail0, used)
    modifies buf.heap
    ensures buf.Valid() && Swaps(old(buf.heap.mem), buf.Own(), buf.heap.mem, buf.Own())
    ensures Counted(buf.heap.mem, buf.data, buf.spare, Cat(sp, Cons(chain, [], Nil)), todo.tail, avail, used + 1)
    ensures next == Head(todo.tail, Null) && (todo.tail.Cons? ==> next != Null)
  {
    var heap := buf.heap;
    Realigned(heap.mem, buf.first, buf.last, buf.Lwd(), buf.data, buf.spare, sp, todo);
    var c := heap.mem[chain];
    EmptyAt(heap.mem, buf.first, buf.last, buf.Lwd(), buf.data, buf.spare, sp, todo);
    CountOne(heap.mem, heap.mem[chain := c.(misalign := 0)], buf.data, buf.spare, sp, todo, avail0, used);
    heap.mem := heap.mem[chain := c.(misalign := 0)];
    avail, next := avail0 + |c.buffer|, c.next;
  }

  /** The first loop of _evbuffer_expand_fast: how much room the last n chunks with
      room offer. */
  method CountSpace(buf: EvBuffer, datlen: nat, n: nat) returns (avail: nat, used: nat, ghost sp: Cells, ghost todo: Cells)
    requires buf.Valid() && buf.HasChunk() && 2 <= n
    modifies buf.heap
    ensures buf.Valid() && Swaps(old(buf.heap.mem), buf.Own(), buf.heap.mem, buf.Own())
    ensures Counted(buf.heap.mem, buf.data, buf.spare, sp, todo, avail, used) && used <= n
    ensures avail < datlen && used < n ==> todo.Nil?
  {
    var heap := buf.heap;
    Ends(heap.mem, buf.first, buf.last, buf.Lwd(), buf.data, buf.spare);
    var chain := buf.Deref(buf.lastWithDatap);
    avail, used, sp, todo := 0, 0, Nil, buf.spare;
    if buf.data.Cons? {
      LastFits(heap.mem, buf.first, buf.data, Head(buf.spare, Null));
    }
    ghost var atData, lastData := buf.data.Cons?, chain;
    while chain != Null
      invariant buf.Valid() && Swaps(old(heap.mem), buf.Own(), heap.mem, buf.Own())
      invariant atData ==> chain == lastData && chain != Null && chain in heap.mem && heap.mem[chain].off != 0
      invariant atData ==> heap.mem[chain].next == Head(todo, Null) && 0 <= heap.mem[chain].SpaceLen()
      invariant atData ==> buf.data.Cons? && chain == LastOf(buf.data) && avail == used == 0 && sp == Nil && todo == buf.spare
      invariant !atData ==> chain == Head(todo, Null) && Counted(heap.mem, buf.data, buf.spare, sp, todo, avail, used)
      invariant used < n && (todo.Cons? ==> todo.p != Null)
      decreases atData, todo
    {
      if !atData {
        Realigned(heap.mem, buf.first, buf.last, buf.Lwd(), buf.data, buf.spare, sp, todo);
      }
      if heap.mem[chain].off != 0 {
        var space := heap.mem[chain].SpaceLen();
        assert chain == lastData;
        if space != 0 {
          avail, used := avail + space, used + 1;
        }
        chain := heap.mem[chain].next;
        atData := false;
      } else {
        ghost var seen := Cons(chain, [], Nil);
        avail, chain := CountEmpty(buf, chain, avail, sp, todo, used);
        used, sp, todo := used + 1, Cat(sp, seen), todo.tail;
      }
      if avail >= datlen {
        return;
      }
      if used == n {
        break;
      }
    }
  }

  /** Room counted so far, and more if there is any. */
  lemma EnoughCounted(mem: Memory, data: Cells, spare: Cells, sp: Cells, todo: Cells, avail: int, used: nat, need: nat, n: nat)
    requires Counted(mem, data, spare, sp, todo, avail, used) && need <= avail && used <= n
    ensures Ready(mem, Writable(mem, data, spare), need, n)
  {
    ReadyCat(mem, Writable(mem, data, sp), todo, need, n);
  }

  /** The last chunk with data has no more room than was counted. */
  lemma LessCounted(mem: Memory, data: Cells, spare: Cells, sp: Cells, todo: Cells, avail: int, used: nat)
    requires Counted(mem, data, spare, sp, todo, avail, used)
    ensures 0 <= avail && (data.Cons? && LastOf(data) in mem ==> mem[LastOf(data)].SpaceLen() <= avail)
  {
    RoomPositive(mem, sp) by {
      assert AllRoom(mem, sp);
    }
  }

  lemma {:induction false} RoomPositive(mem: Memory, cs: Cells)
    requires AllRoom(mem, cs)
    ensures 0 <= Room(mem, cs)
  {
    if cs.Cons? {
      RoomPositive(mem, cs.tail);
    }
  }

  /** A chunk without data linked behind the last one. */
  lemma Appended(mem: Memory, p: Ptr, last: Ptr, lwd: Link, data: Cells, spare: Cells, t: Ptr)
    requires Layout(mem, p, last, lwd, data, spare) && (data.Cons? || spare.Cons?)
    requires t != Null && t in mem && t !in Ptrs(Cat(data, spare)) && mem[t].next == Null && Reads(mem[t], [])
    ensures last in mem && last != Null
    ensures var mem', tail := mem[last := mem[last].(next := t)], Cons(t, [], Nil);
      && Layout(mem', p, t, lwd, data, Cat(spare, tail))
      && Swaps(mem, Ptrs(Cat(data, spare)) + {t}, mem', Ptrs(Cat(data, Cat(spare, tail))))
  {
    var cells, tail := Cat(data, spare), Cons(t, [], Nil);
    CatParts(cells, tail);
    CatAssoc(data, spare, tail);
    CatParts(spare, tail);
    LastIn(cells);
    SegPtrs(mem, p, cells, Null);
    SegAttach(mem, p, cells, Null, tail, Null);
  }

  /** The chunks without data, already freed, replaced by a new one. */
  lemma Renewed(mem: Memory, p: Ptr, last: Ptr, lwd: Link, data: Cells, spare: Cells, mem2: Memory, t: Ptr)
    requires Layout(mem, p, last, lwd, data, spare) && mem2 - {t} == mem - Ptrs(spare)
    requires t != Null && t in mem2 && t !in mem - Ptrs(spare) && mem2[t].next == Null && Reads(mem2[t], [])
    ensures data.Cons? ==> LastOf(data) in mem2 && LastOf(data) in mem && mem2[LastOf(data)] == mem[LastOf(data)]
    ensures var mem', tail := if data.Nil? then mem2 else mem2[LastOf(data) := mem2[LastOf(data)].(next := t)], Cons(t, [], Nil);
      && Layout(mem', if data.Nil? then t else p, t, lwd, data, tail)
      && Swaps(mem, Ptrs(Cat(data, spare)), mem', Ptrs(Cat(data, tail)))
  {
    var tail := Cons(t, [], Nil);
    Ends(mem, p, last, lwd, data, spare);
    CatParts(data, tail);
    Unfreed(mem, p, data, spare, mem2, t);
    if data.Cons? {
      SegAttach(mem2, p, data, Head(spare, Null), tail, Null);
    }
    assert NoDup(tail) && Ptrs(tail) == {t} && AllEmpty(tail) && Seg(mem2, t, tail, Null);
    assert data.Nil? ==> Cat(data, tail) == tail;
    hide Seg, Ptrs, NoDup, Reads, LwdOf, AllEmpty;
  }

  /** The chunks with data, once the others are freed and t is allocated. */
  lemma Unfreed(mem: Memory, p: Ptr, data: Cells, spare: Cells, mem2: Memory, t: Ptr)
    requires Seg(mem, p, data, Head(spare, Null)) && Ptrs(data) !! Ptrs(spare)
    requires mem2 - {t} == mem - Ptrs(spare) && t !in mem - Ptrs(spare)
    ensures Seg(mem2, p, data, Head(spare, Null)) && t !in Ptrs(data)
    ensures data.Cons? ==> LastOf(data) in mem2 && LastOf(data) in mem && mem2[LastOf(data)] == mem[LastOf(data)]
    ensures mem2 - (Ptrs(data) + {t}) == mem - (Ptrs(data) + Ptrs(spare))
  {
    SegPtrs(mem, p, data, Head(spare, Null));
    forall r | r in Ptrs(data)
      ensures r != t && r in mem2 && mem2[r] == mem[r]
    {
      assert r in mem - Ptrs(spare);
      assert r in mem2 - {t};
    }
    SegFrame(mem, mem2, p, data, Head(spare, Null));
    if data.Cons? {
      LastIn(data);
    }
    assert mem - (Ptrs(data) + Ptrs(spare)) == (mem - Ptrs(spare)) - Ptrs(data);
    assert mem2 - (Ptrs(data) + {t}) == (mem2 - {t}) - Ptrs(data);
  }

  /** Chunks with room keep it when only a link changes, and t offers more. */
  lemma RoomBehind(mem: Memory, mem': Memory, data: Cells, spare: Cells, avail: int, used: nat, t: Ptr, need: nat, n: nat)
    requires Counted(mem, data, spare, spare, Nil, avail, used) && used < n
    requires forall r :: r in mem ==> r in mem' && mem'[r].SpaceLen() == mem[r].SpaceLen()
    requires t in mem' && need - avail <= mem'[t].SpaceLen() && 0 < mem'[t].SpaceLen()
    requires data.Cons? ==> LastOf(data) in mem
    ensures Ready(mem', Writable(mem', data, Cat(spare, Cons(t, [], Nil))), need, n)
  {
    var seen := Writable(mem, data, spare);
    RoomFrame(mem, mem', seen);
    ReadyCat(mem', seen, Cons(t, [], Nil), need, n);
  }

  /** The case of _evbuffer_expand_fast that adds a chunk behind the others. */
  method AddSpare(buf: EvBuffer, datlen: nat, avail: nat, n: nat, ghost used: nat)
    requires buf.Valid() && buf.HasChunk() && avail < datlen && used < n
    requires Counted(buf.heap.mem, buf.data, buf.spare, buf.spare, Nil, avail, used)
    modifies buf`last, buf`spare, buf.heap
    ensures buf.Valid() && Ready(buf.heap.mem, Writable(buf.heap.mem, buf.data, buf.spare), datlen, n)
    ensures Swaps(old(buf.heap.mem), old(buf.Own()), buf.heap.mem, buf.Own())
  {
    var heap := buf.heap;
    ghost var mem0 := heap.mem;
    Ends(mem0, buf.first, buf.last, buf.Lwd(), buf.data, buf.spare);
    var tmp := ChainNew(heap, datlen - avail);
    LayoutFresh(mem0, heap.mem, tmp, buf.first, buf.last, buf.Lwd(), buf.data, buf.spare);
    Appended(heap.mem, buf.first, buf.last, buf.Lwd(), buf.data, buf.spare, tmp);
    ghost var mem' := heap.mem[buf.last := heap.mem[buf.last].(next := tmp)];
    RoomBehind(mem0, mem', buf.data, buf.spare, avail, used, tmp, datlen, n);
    assert heap.mem - (buf.Own() + {tmp}) == (heap.mem - {tmp}) - buf.Own();
    heap.mem := heap.mem[buf.last := heap.mem[buf.last].(next := tmp)];
    buf.last := tmp;
    buf.spare := Cat(buf.spare, Cons(tmp, [], Nil));
  }

  /** Frees every chunk without data. */
  method FreeSpare(buf: EvBuffer) returns (chain: Ptr, rmvAll: bool, avail: nat)
    requires buf.Valid() && buf.HasChunk()
    modifies buf.heap
    ensures rmvAll == buf.data.Nil?
    ensures buf.heap.mem == old(buf.heap.mem) - Ptrs(buf.spare)
    ensures !rmvAll ==> chain == LastOf(buf.data) && chain in old(buf.heap.mem) && avail == old(buf.heap.mem[chain]).SpaceLen()
    ensures rmvAll ==> avail == 0 && buf.lastWithDatap == FirstOf(buf)
  {
    var heap := buf.heap;
    Ends(heap.mem, buf.first, buf.last, buf.Lwd(), buf.data, buf.spare);
    chain, avail := buf.Deref(buf.lastWithDatap), 0;
    rmvAll := heap.mem[chain].off == 0;
    if rmvAll {
      assert chain == buf.first;
      FreeAllChains(heap, chain, buf.spare);
    } else {
      LastFits(heap.mem, buf.first, buf.data, Head(buf.spare, Null));
      avail := heap.mem[chain].SpaceLen();
      FreeAllChains(heap, heap.mem[chain].next, buf.spare);
    }
  }

  /** The case of _evbuffer_expand_fast that replaces all empty chunks. */
  method ReplaceSpare(buf: EvBuffer, datlen: nat, n: nat)
    requires buf.Valid() && buf.HasChunk() && 2 <= n
    requires buf.data.Cons? && LastOf(buf.data) in buf.heap.mem ==> buf.heap.mem[LastOf(buf.data)].SpaceLen() < datlen
    modifies buf`first, buf`last, buf`lastWithDatap, buf`spare, buf.heap
    ensures buf.Valid() && Ready(buf.heap.mem, Writable(buf.heap.mem, buf.data, buf.spare), datlen, n)
    ensures Swaps(old(buf.heap.mem), old(buf.Own()), buf.heap.mem, buf.Own())
  {
    var heap := buf.heap;
    ghost var mem0 := heap.mem;
    var chain, rmvAll, avail := FreeSpare(buf);
    var tmp := ChainNew(heap, datlen - avail);
    Renewed(mem0, buf.first, buf.last, buf.Lwd(), buf.data, buf.spare, heap.mem, tmp);
    if rmvAll {
      buf.first, buf.last := tmp, tmp;
      buf.lastWithDatap := FirstOf(buf);
    } else {
      heap.mem := heap.mem[chain := heap.mem[chain].(next := tmp)];
      buf.last := tmp;
    }
    buf.spare := Cons(tmp, [], Nil);
  }

  /** _evbuffer_expand_fast: afterwards at most n chunks have room for datlen
      bytes. No data is moved. */
  method ExpandFast(buf: EvBuffer, datlen: nat, n: nat)
    requires buf.Valid() && 2 <= n
    modifies buf`first, buf`last, buf`lastWithDatap, buf`totalLen, buf`data, buf`spare, buf.heap
    ensures buf.Valid() && buf.HasChunk() && buf.data == old(buf.data)
    ensures Ready(buf.heap.mem, Writable(buf.heap.mem, buf.data, buf.spare), datlen, n)
    ensures Swaps(old(buf.heap.mem), old(buf.Own()), buf.heap.mem, buf.Own())
  {
    SegPtrs(buf.heap.mem, buf.first, Cat(buf.data, buf.spare), Null);
    if buf.last == Null {
      assert buf.data.Nil? && buf.spare.Nil? by {
        if buf.HasChunk() {
          LastIn(Cat(buf.data, buf.spare));
        }
      }
      var chain := ChainNew(buf.heap, datlen);
      ghost var mem1 := buf.heap.mem;
      LayoutFresh(old(buf.heap.mem), mem1, chain, buf.first, buf.last, buf.Lwd(), buf.data, buf.spare);
      InsertedValid(buf.data, buf.spare, chain, []);
      var _ := ChainInsert(buf, chain, []);
      assert old(buf.heap.mem) - {} == old(buf.heap.mem) && {} + {chain} == {chain};
      return;
    }
    var avail, used;
    ghost var sp, todo;
    avail, used, sp, todo := CountSpace(buf, datlen, n);
    if avail >= datlen {
      EnoughCounted(buf.heap.mem, buf.data, buf.spare, sp, todo, avail, used, datlen, n);
    } else if used < n {
      CatNil(sp);
      AddSpare(buf, datlen, avail, n, used);
    } else {
      LessCounted(buf.heap.mem, buf.data, buf.spare, sp, todo, avail, used);
      ReplaceSpare(buf, datlen, n);
    }
  }

  // ----- _evbuffer_read_setup_vecs

  /** struct evbuffer_iovec: len bytes at position `at` of a chunk's memory. */
  datatype IoVec = IoVec(chain: Ptr, at: int, len: int)

  function Total(vecs: seq<IoVec>): int {
    if vecs == [] then 0 else vecs[0].len + Total(vecs[1..])
  }

  lemma TotalCons(v: IoVec, rest: seq<IoVec>)
    ensures Total([v] + rest) == v.len + Total(rest)
  {
    assert ([v] + rest)[1..] == rest;
  }

  /** The free space of the chunks cs as vectors: as many chunks as it takes to
      reach howmuch, but no more than n. */
  ghost function VecsOf(mem: Memory, cs: Cells, howmuch: int, n: nat, exact: bool): (vecs: seq<IoVec>)
    ensures |vecs| <= n
    decreases n
  {
    if n == 0 || howmuch <= 0 || cs.Nil? || cs.p !in mem then []
    else
      var c := mem[cs.p];
      var len := if c.SpaceLen() > howmuch && exact then howmuch else c.SpaceLen();
      [IoVec(cs.p, c.misalign + c.off, len)] + VecsOf(mem, cs.tail, howmuch - len, n - 1, exact)
  }

  /** Room for howmuch bytes makes vectors of exactly that length, or at least
      that length. */
  lemma {:induction false} VecsTotal(mem: Memory, cs: Cells, howmuch: int, n: nat, exact: bool)
    requires Ready(mem, cs, howmuch, n)
    ensures exact && 0 <= howmuch ==> Total(VecsOf(mem, cs, howmuch, n, exact)) == howmuch
    ensures howmuch <= Total(VecsOf(mem, cs, howmuch, n, exact))
    decreases n
  {
    if howmuch > 0 {
      var space := mem[cs.p].SpaceLen();
      var len := if space > howmuch && exact then howmuch else space;
      VecsTotal(mem, cs.tail, howmuch - len, n - 1, exact);
      TotalCons(IoVec(cs.p, mem[cs.p].misalign + mem[cs.p].off, len), VecsOf(mem, cs.tail, howmuch - len, n - 1, exact));
    }
  }

  lemma VecsAppend(before: seq<IoVec>, v: IoVec, rest: seq<IoVec>)
    ensures before + ([v] + rest) == (before + [v]) + rest
    ensures before + [] == before
  {
  }

  /** Following `next` from p visits the chunks cs and ends at a null pointer. */
  ghost predicate Chained(mem: Memory, p: Ptr, cs: Cells)
    decreases cs
  {
    match cs
    case Nil => p == Null
    case Cons(r, _, tail) => p == r && p != Null && p in mem && Chained(mem, mem[p].next, tail)
  }

  lemma {:induction false} SegChained(mem: Memory, p: Ptr, cs: Cells)
    requires Seg(mem, p, cs, Null)
    ensures Chained(mem, p, cs)
    decreases cs
  {
    if cs.Cons? {
      SegChained(mem, mem[p].next, cs.tail);
    }
  }

  /** The link that reaches the first chunk with room. */
  ghost function FirstRoom(buf: EvBuffer): Slot
    reads buf, buf.heap
  {
    if buf.data.Cons? && LastOf(buf.data) in buf.heap.mem && buf.heap.mem[LastOf(buf.data)].SpaceLen() == 0
    then NextOf(LastOf(buf.data)) else buf.lastWithDatap
  }

  /** One round of the loop below. */
  lemma VecsStep(mem: Memory, before: seq<IoVec>, chain: Ptr, rest: Cells, need: int, n: nat, exact: bool)
    requires Chained(mem, chain, rest) && Ready(mem, rest, need, n) && 0 < n && 0 < need
    ensures rest.Cons? && chain in mem
    ensures var c := mem[chain];
      var avail := if c.SpaceLen() > need && exact then need else c.SpaceLen();
      && Chained(mem, c.next, rest.tail) && Ready(mem, rest.tail, need - avail, n - 1)
      && before + VecsOf(mem, rest, need, n, exact) ==
         before + [IoVec(chain, c.misalign + c.off, avail)] + VecsOf(mem, rest.tail, need - avail, n - 1, exact)
  {
    var c := mem[chain];
    var avail := if c.SpaceLen() > need && exact then need else c.SpaceLen();
    VecsAppend(before, IoVec(chain, c.misalign + c.off, avail), VecsOf(mem, rest.tail, need - avail, n - 1, exact));
  }

  /** The loop of _evbuffer_read_setup_vecs. */
  method CollectVecs(heap: Heap, chain0: Ptr, howmuch: nat, nVecsAvail: nat, exact: bool, ghost w: Cells)
    returns (result: nat, vecs: seq<IoVec>)
    requires 0 < howmuch ==> Chained(heap.mem, chain0, w)
    requires Ready(heap.mem, w, howmuch, nVecsAvail)
    ensures vecs == VecsOf(heap.mem, w, howmuch, nVecsAvail, exact) && result == |vecs|
  {
    var mem, i, soFar, chain := heap.mem, 0, 0, chain0;
    ghost var rest, need := w, howmuch as int;
    vecs := [];
    while i < nVecsAvail && soFar < howmuch
      invariant i <= nVecsAvail && i == |vecs| && need == howmuch - soFar
      invariant soFar < howmuch ==> Chained(mem, chain, rest)
      invariant Ready(mem, rest, need, nVecsAvail - i)
      invariant vecs + VecsOf(mem, rest, need, nVecsAvail - i, exact) == VecsOf(mem, w, howmuch, nVecsAvail, exact)
    {
      VecsStep(mem, vecs, chain, rest, need, nVecsAvail - i, exact);
      var avail := mem[chain].SpaceLen();
      if avail > howmuch - soFar && exact {
        avail := howmuch - soFar;
      }
      vecs := vecs + [IoVec(chain, mem[chain].misalign + mem[chain].off, avail)];
      soFar := soFar + avail;
      chain := mem[chain].next;
      i := i + 1;
      need, rest := need - avail, rest.tail;
    }
    VecsAppend(vecs, IoVec(Null, 0, 0), []);
    result := i;
  }

  /** _evbuffer_read_setup_vecs: never runs off the list of chunks. */
  method ReadSetupVecs(buf: EvBuffer, howmuch: int, nVecsAvail: nat, exact: bool)
    returns (result: int, vecs: seq<IoVec>, chainp: Slot)
    requires buf.Valid() && buf.HasChunk()
    requires Ready(buf.heap.mem, Writable(buf.heap.mem, buf.data, buf.spare), howmuch, nVecsAvail)
    ensures howmuch < 0 ==> result == -1
    ensures 0 <= howmuch ==>
      && vecs == VecsOf(buf.heap.mem, Writable(buf.heap.mem, buf.data, buf.spare), howmuch, nVecsAvail, exact)
      && 0 <= result == |vecs| <= nVecsAvail
      && (if exact then Total(vecs) == howmuch else howmuch <= Total(vecs))
    ensures 0 < howmuch ==> chainp == FirstRoom(buf)
  {
    vecs, chainp := [], buf.lastWithDatap;
    if howmuch < 0 {
      return -1, vecs, chainp;
    }
    var mem := buf.heap.mem;
    Ends(mem, buf.first, buf.last, buf.Lwd(), buf.data, buf.spare);
    SegChained(mem, Head(buf.spare, Null), buf.spare);
    var firstchain := buf.Deref(buf.lastWithDatap);
    if mem[firstchain].SpaceLen() == 0 {
      chainp := NextOf(firstchain);
    }
    ghost var w := Writable(mem, buf.data, buf.spare);
    VecsTotal(mem, w, howmuch, nVecsAvail, exact);
    result, vecs := CollectVecs(buf.heap, buf.Deref(chainp), howmuch, nVecsAvail, exact, w);
  }

  // ----- readv

  /** The contents of a chunk's free memory may have changed, nothing else. */
  ghost predicate Kept(c: Chain, c': Chain) {
    && c' == c.(buffer := c'.buffer) && |c'.buffer| == |c.buffer|
    && (c.misalign + c.off <= |c.buffer| ==> c'.buffer[..c.misalign + c.off] == c.buffer[..c.misalign + c.off])
  }

  lemma KeptReads(c: Chain, c': Chain, d: seq<byte>)
    requires Kept(c, c') && Reads(c, d)
    ensures Reads(c', d)
  {
    var end := c.misalign + c.off;
    assert c'.buffer[c.misalign..end] == c'.buffer[..end][c.misalign..];
    assert c.buffer[c.misalign..end] == c.buffer[..end][c.misalign..];
  }

  /** Bytes written behind the window of a chunk. */
  lemma WrittenKept(c: Chain, part: seq<byte>)
    requires c.misalign + c.off + |part| <= |c.buffer|
    ensures Kept(c, c.(buffer := Copied(c.buffer, c.misalign + c.off, part)))
  {
  }

  /** Only free memory of the chunks ps may have changed. */
  ghost predicate FreeWrites(mem: Memory, ps: set<Ptr>, mem': Memory) {
    && Swaps(mem, ps, mem', ps)
    && forall r :: r in ps && r in mem ==> r in mem' && Kept(mem[r], mem'[r])
  }

  lemma {:induction false} SegKept(mem: Memory, ps: set<Ptr>, mem': Memory, p: Ptr, cs: Cells, q: Ptr)
    requires Seg(mem, p, cs, q) && FreeWrites(mem, ps, mem')
    ensures Seg(mem', p, cs, q)
    decreases cs
  {
    if cs.Cons? {
      if p in ps {
        KeptReads(mem[p], mem'[p], cs.data);
      } else {
        SwapsElsewhere(mem, ps, mem', p);
      }
      SegKept(mem, ps, mem', mem[p].next, cs.tail, q);
    }
  }

  /** The vectors point into memory. */
  ghost predicate Fits(mem: Memory, vecs: seq<IoVec>) {
    vecs != [] ==>
      && vecs[0].chain in mem && 0 <= vecs[0].at && 0 <= vecs[0].len
      && vecs[0].at + vecs[0].len <= |mem[vecs[0].chain].buffer|
      && Fits(mem, vecs[1..])
  }

  /** Each chunk of cs and its window exist. */
  ghost predicate AllFit(mem: Memory, cs: Cells) {
    cs.Cons? ==> cs.p in mem && 0 <= mem[cs.p].SpaceLen() && AllFit(mem, cs.tail)
  }

  /** The free memory of the chunks cs holds bs, from chunk to chunk. */
  ghost predicate Holding(mem: Memory, cs: Cells, bs: seq<byte>)
    decreases cs
  {
    bs != [] ==>
      && cs.Cons? && cs.p in mem && 0 <= mem[cs.p].SpaceLen()
      && var c, k := mem[cs.p], Min(mem[cs.p].SpaceLen(), |bs|);
        c.buffer[c.misalign + c.off..c.misalign + c.off + k] == bs[..k] && Holding(mem, cs.tail, bs[k..])
  }

  /** The memory after readv stored bs. */
  function Scattered(mem: Memory, vecs: seq<IoVec>, bs: seq<byte>): Memory
    requires Fits(mem, vecs)
    decreases |vecs|
  {
    if vecs == [] then mem
    else
      var v, k := vecs[0], Min(vecs[0].len, |bs|);
      var c := mem[v.chain];
      var mem1 := mem[v.chain := c.(buffer := Copied(c.buffer, v.at, bs[..k]))];
      FitsAfter(mem, v.chain, mem1, vecs[1..]);
      Scattered(mem1, vecs[1..], bs[k..])
  }

  lemma {:induction false} FitsAfter(mem: Memory, p: Ptr, mem1: Memory, vecs: seq<IoVec>)
    requires Fits(mem, vecs) && p in mem && p in mem1 && mem1 == mem[p := mem1[p]]
    requires |mem1[p].buffer| == |mem[p].buffer|
    ensures Fits(mem1, vecs)
    decreases |vecs|
  {
    if vecs != [] {
      FitsAfter(mem, p, mem1, vecs[1..]);
    }
  }

  /** The vectors cover the free space of the first of the chunks cs: all of it,
      except that the last vector may cover only a part. */
  ghost predicate Cover(mem: Memory, vecs: seq<IoVec>, cs: Cells)
    decreases cs
  {
    vecs != [] ==>
      && cs.Cons? && cs.p in mem
      && vecs[0] == IoVec(cs.p, mem[cs.p].misalign + mem[cs.p].off, vecs[0].len)
      && 0 <= vecs[0].len <= mem[cs.p].SpaceLen()
      && (vecs[0].len < mem[cs.p].SpaceLen() ==> vecs[1..] == [])
      && Cover(mem, vecs[1..], cs.tail)
  }

  lemma {:induction false} VecsCover(mem: Memory, cs: Cells, howmuch: int, n: nat)
    requires AllFit(mem, cs)
    ensures Cover(mem, VecsOf(mem, cs, howmuch, n, true), cs)
    decreases n
  {
    var vecs := VecsOf(mem, cs, howmuch, n, true);
    if vecs != [] {
      var rest := VecsOf(mem, cs.tail, howmuch - vecs[0].len, n - 1, true);
      VecsCover(mem, cs.tail, howmuch - vecs[0].len, n - 1);
      assert vecs[1..] == rest;
    }
  }

  lemma {:induction false} CoverFits(mem: Memory, vecs: seq<IoVec>, cs: Cells)
    requires Cover(mem, vecs, cs)
    ensures Fits(mem, vecs) && 0 <= Total(vecs)
    decreases cs
  {
    if vecs != [] {
      CoverFits(mem, vecs[1..], cs.tail);
    }
  }

  lemma {:induction false} CoverFrame(mem: Memory, p: Ptr, mem1: Memory, vecs: seq<IoVec>, cs: Cells)
    requires Cover(mem, vecs, cs) && p !in Ptrs(cs) && p in mem1 && mem1 == mem[p := mem1[p]]
    ensures Cover(mem1, vecs, cs)
    decreases cs
  {
    if vecs != [] {
      CoverFrame(mem, p, mem1, vecs[1..], cs.tail);
    }
  }

  /** readv leaves the bytes in the free memory of the chunks, in order. */
  lemma {:induction false} ScatterHolds(mem: Memory, vecs: seq<IoVec>, cs: Cells, bs: seq<byte>) returns (mem': Memory)
    requires Cover(mem, vecs, cs) && NoDup(cs) && |bs| <= Total(vecs)
    ensures Fits(mem, vecs) && mem' == Scattered(mem, vecs, bs)
    ensures Holding(mem', cs, bs) && FreeWrites(mem, Ptrs(cs), mem')
    decreases cs
  {
    CoverFits(mem, vecs, cs);
    if vecs == [] {
      mem' := mem;
    } else {
      var v, k, c := vecs[0], Min(vecs[0].len, |bs|), mem[cs.p];
      var mem1 := mem[v.chain := c.(buffer := Copied(c.buffer, v.at, bs[..k]))];
      CoverFits(mem, vecs[1..], cs.tail);
      CoverFrame(mem, cs.p, mem1, vecs[1..], cs.tail);
      mem' := ScatterHolds(mem1, vecs[1..], cs.tail, bs[k..]);
      ScatterJoin(mem, cs, mem1, bs[..k], mem');
      HoldingCons(mem1, cs, bs, k, mem');
    }
  }

  /** A chunk with its part of the bytes, in front of the chunks that have the rest. */
  lemma HoldingCons(mem1: Memory, cs: Cells, bs: seq<byte>, k: nat, mem': Memory)
    requires cs.Cons? && cs.p in mem1 && cs.p !in Ptrs(cs.tail)
    requires FreeWrites(mem1, Ptrs(cs.tail), mem') && k <= |bs| && k <= mem1[cs.p].SpaceLen()
    requires k < |bs| ==> k == mem1[cs.p].SpaceLen()
    requires var c := mem1[cs.p]; c.buffer[c.misalign + c.off..c.misalign + c.off + k] == bs[..k]
    requires Holding(mem', cs.tail, bs[k..])
    ensures Holding(mem', cs, bs)
  {
    SwapsElsewhere(mem1, Ptrs(cs.tail), mem', cs.p);
  }

  lemma ScatterJoin(mem: Memory, cs: Cells, mem1: Memory, part: seq<byte>, mem': Memory)
    requires cs.Cons? && cs.p !in Ptrs(cs.tail) && cs.p in mem
    requires mem[cs.p].misalign + mem[cs.p].off + |part| <= |mem[cs.p].buffer|
    requires mem1 == mem[cs.p := mem[cs.p].(buffer := Copied(mem[cs.p].buffer, mem[cs.p].misalign + mem[cs.p].off, part))]
    requires FreeWrites(mem1, Ptrs(cs.tail), mem')
    ensures FreeWrites(mem, Ptrs(cs), mem')
  {
    SwapsElsewhere(mem1, Ptrs(cs.tail), mem', cs.p);
    WrittenKept(mem[cs.p], part);
    assert mem - Ptrs(cs) == mem1 - Ptrs(cs.tail) - {cs.p};
    assert mem' - Ptrs(cs) == mem' - Ptrs(cs.tail) - {cs.p};
  }

  // ----- evbuffer_read

  /** The commit loop: the chunks `done` are behind it, the free memory of the
      chunks todo holds bs, and at most n of them take it. */
  ghost predicate Committing(mem: Memory, first: Ptr, last: Ptr, own: set<Ptr>, goal: seq<byte>,
                             done: Cells, todo: Cells, bs: seq<byte>, n: nat) {
    && Seg(mem, first, Cat(done, todo), Null) && NoDup(Cat(done, todo))
    && AllData(done) && todo.Cons? && AllEmpty(todo.tail)
    && last == LastOf(Cat(done, todo)) && own == Ptrs(Cat(done, todo))
    && bs != [] && Holding(mem, todo, bs) && Ready(mem, todo, |bs|, n)
    && Flat(done) + todo.data + bs == goal
  }

  /** The chunk grows by the next k bytes. */
  function Committed(c: Chain, k: nat): Chain {
    c.(off := c.off + k)
  }

  lemma CommittedReads(c: Chain, d: seq<byte>, part: seq<byte>)
    requires Reads(c, d) && c.misalign + c.off + |part| <= |c.buffer|
    requires c.buffer[c.misalign + c.off..c.misalign + c.off + |part|] == part
    ensures Reads(Committed(c, |part|), d + part)
  {
    var end := c.misalign + c.off;
    var w := c.buffer[c.misalign..end + |part|];
    assert w[..c.off] == c.buffer[c.misalign..end] && w[c.off..] == c.buffer[end..end + |part|];
    assert w == w[..c.off] + w[c.off..];
  }

  /** What one chunk's new bytes do to the list. */
  lemma CommitWrite(mem: Memory, first: Ptr, last: Ptr, own: set<Ptr>, goal: seq<byte>,
                    done: Cells, todo: Cells, bs: seq<byte>, n: nat, k: nat) returns (grown: Cells, mem': Memory)
    requires Committing(mem, first, last, own, goal, done, todo, bs, n)
    requires todo.p in mem ==> k == Min(mem[todo.p].SpaceLen(), |bs|)
    ensures todo.p in mem && todo.p != Null && todo.p in own && 0 < k <= |bs|
    ensures mem' == mem[todo.p := Committed(mem[todo.p], k)]
    ensures mem[todo.p].next == Head(todo.tail, Null)
    ensures grown == Cons(todo.p, todo.data + bs[..k], Nil)
    ensures Seg(mem', first, Cat(Cat(done, grown), todo.tail), Null) && NoDup(Cat(Cat(done, grown), todo.tail))
    ensures AllData(Cat(done, grown)) && LastOf(Cat(Cat(done, grown), todo.tail)) == last
    ensures Ptrs(Cat(Cat(done, grown), todo.tail)) == own && todo.p !in Ptrs(todo.tail)
    ensures Flat(Cat(done, grown)) + bs[k..] == goal
    ensures Swaps(mem, own, mem', own)
  {
    SegCat(mem, first, done, todo, Null);
    CatParts(done, todo);
    var d := todo.data + bs[..k];
    grown := Cons(todo.p, d, Nil);
    CommittedReads(mem[todo.p], todo.data, bs[..k]);
    SegWrite(mem, first, done, todo, Null, Committed(mem[todo.p], k), d, todo.tail);
    CatAssoc(done, grown, todo.tail);
    CatParts(done, Cons(todo.p, d, todo.tail));
    CatParts(done, grown);
    mem' := mem[todo.p := Committed(mem[todo.p], k)];
    SwapsOne(mem, own, todo.p, Committed(mem[todo.p], k));
    CommitBytes(Flat(done), todo.data, bs, k);
  }

  lemma CommitBytes(done: seq<byte>, d: seq<byte>, bs: seq<byte>, k: nat)
    requires k <= |bs|
    ensures (done + (d + bs[..k])) + bs[k..] == done + d + bs
    ensures d + bs[..k] + [] == d + bs[..k]
  {
    var x, y := bs[..k], bs[k..];
    assert bs == x + y;
    Assoc(done, d, x);
    Assoc(done + d, x, y);
  }

  lemma {:induction false} RestFrame(mem: Memory, p: Ptr, mem': Memory, cs: Cells, bs: seq<byte>, need: int, n: nat)
    requires Holding(mem, cs, bs) && Ready(mem, cs, need, n)
    requires p !in Ptrs(cs) && p in mem' && mem' == mem[p := mem'[p]]
    ensures Holding(mem', cs, bs) && Ready(mem', cs, need, n)
    decreases cs
  {
    if cs.Cons? {
      RestFrame(mem, p, mem', cs.tail,
                if bs == [] then [] else bs[Min(mem[cs.p].SpaceLen(), |bs|)..],
                if need > 0 then need - mem[cs.p].SpaceLen() else 0, if n == 0 then 0 else n - 1);
    }
  }

  /** The round of the commit loop for a chunk that is filled. */
  lemma CommitFull(mem: Memory, first: Ptr, last: Ptr, own: set<Ptr>, goal: seq<byte>,
                   done: Cells, todo: Cells, bs: seq<byte>, n: nat) returns (done': Cells, bs': seq<byte>, mem': Memory)
    requires Committing(mem, first, last, own, goal, done, todo, bs, n)
    requires todo.p in mem ==> mem[todo.p].SpaceLen() < |bs|
    ensures todo.p in mem && 0 < mem[todo.p].SpaceLen() && 0 < n
    ensures mem' == mem[todo.p := Committed(mem[todo.p], mem[todo.p].SpaceLen())]
    ensures |bs'| == |bs| - mem[todo.p].SpaceLen()
    ensures done'.Cons? && LastOf(done') == todo.p
    ensures Committing(mem', first, last, own, goal, done', todo.tail, bs', n - 1)
    ensures mem[todo.p].next == todo.tail.p && Swaps(mem, own, mem', own)
  {
    var k := mem[todo.p].SpaceLen();
    var grown;
    grown, mem' := CommitWrite(mem, first, last, own, goal, done, todo, bs, n, k);
    done', bs' := Cat(done, grown), bs[k..];
    CatParts(done, grown);
    RestFrame(mem, todo.p, mem', todo.tail, bs', |bs| - k, n - 1);
    assert Flat(done') + [] == Flat(done');
  }

  /** The last round of the commit loop. */
  lemma CommitLast(mem: Memory, first: Ptr, last: Ptr, own: set<Ptr>, goal: seq<byte>,
                   done: Cells, todo: Cells, bs: seq<byte>, n: nat) returns (data': Cells, mem': Memory)
    requires Committing(mem, first, last, own, goal, done, todo, bs, n)
    requires todo.p in mem ==> |bs| <= mem[todo.p].SpaceLen()
    ensures todo.p in mem && mem' == mem[todo.p := Committed(mem[todo.p], |bs|)]
    ensures Layout(mem', first, last, if done.Nil? then First else Next(LastOf(done)), data', todo.tail)
    ensures data'.Cons? && Flat(data') == goal && Ptrs(Cat(data', todo.tail)) == own
    ensures Swaps(mem, own, mem', own)
  {
    var grown;
    grown, mem' := CommitWrite(mem, first, last, own, goal, done, todo, bs, n, |bs|);
    data' := Cat(done, grown);
    LwdSnoc(done, todo.p, grown.data);
    assert bs[|bs|..] == [] && Flat(data') + [] == Flat(data');
  }

  /** The chunk that the link behind `done` reaches. */
  lemma AtChunk(mem: Memory, p: Ptr, done: Cells, todo: Cells)
    requires Seg(mem, p, Cat(done, todo), Null) && todo.Cons?
    ensures done.Cons? ==> LastOf(done) in mem && mem[LastOf(done)].next == todo.p
    ensures done.Nil? ==> p == todo.p
    ensures todo.p in mem && 0 <= mem[todo.p].SpaceLen()
  {
    SegCat(mem, p, done, todo, Null);
    LwdTarget(mem, p, done, todo.p);
  }

  lemma CommitAt(mem: Memory, first: Ptr, last: Ptr, own: set<Ptr>, goal: seq<byte>,
                 done: Cells, todo: Cells, bs: seq<byte>, n: nat)
    requires Committing(mem, first, last, own, goal, done, todo, bs, n)
    ensures done.Cons? ==> LastOf(done) in mem && mem[LastOf(done)].next == todo.p
    ensures done.Nil? ==> first == todo.p
    ensures todo.Cons? && todo.p in mem && 0 <= mem[todo.p].SpaceLen() && 0 < n
  {
    AtChunk(mem, first, done, todo);
  }

  /** The last round of the loop below. */
  method CommitEnd(buf: EvBuffer, chainp: Slot, chain: Ptr, remaining: nat,
                   ghost done: Cells, ghost todo: Cells, ghost bs: seq<byte>, ghost goal: seq<byte>, ghost n: nat)
    requires Committing(buf.heap.mem, buf.first, buf.last, buf.Own(), goal, done, todo, bs, n)
    requires chainp == SlotAfter(buf, done) && chain == todo.p && remaining == |bs|
    requires chain in buf.heap.mem && remaining <= buf.heap.mem[chain].SpaceLen()
    modifies buf`lastWithDatap, buf`data, buf`spare, buf.heap
    ensures Layout(buf.heap.mem, buf.first, buf.last, buf.Lwd(), buf.data, buf.spare) && buf.Homed()
    ensures Flat(buf.data) == goal && buf.data.Cons? && buf.Own() == old(buf.Own())
    ensures Swaps(old(buf.heap.mem), old(buf.Own()), buf.heap.mem, old(buf.Own()))
  {
    var heap, c := buf.heap, buf.heap.mem[chain];
    ghost var data', mem' := CommitLast(heap.mem, buf.first, buf.last, buf.Own(), goal, done, todo, bs, n);
    heap.mem := heap.mem[chain := c.(off := c.off + remaining)];
    assert heap.mem == mem';
    buf.lastWithDatap := chainp;
    buf.data, buf.spare := data', todo.tail;
  }

  /** A round of the loop below that fills its chunk. */
  method CommitChunk(buf: EvBuffer, chain: Ptr, space: nat,
                     ghost done: Cells, ghost todo: Cells, ghost bs: seq<byte>, ghost goal: seq<byte>, ghost n: nat)
    returns (ghost done': Cells, ghost bs': seq<byte>)
    requires Committing(buf.heap.mem, buf.first, buf.last, buf.Own(), goal, done, todo, bs, n)
    requires chain == todo.p && chain in buf.heap.mem && space == buf.heap.mem[chain].SpaceLen() < |bs|
    modifies buf.heap
    ensures 0 < n && |bs'| == |bs| - space && done'.Cons? && LastOf(done') == chain
    ensures Committing(buf.heap.mem, buf.first, buf.last, buf.Own(), goal, done', todo.tail, bs', n - 1)
    ensures Swaps(old(buf.heap.mem), buf.Own(), buf.heap.mem, buf.Own())
  {
    var heap, c := buf.heap, buf.heap.mem[chain];
    ghost var mem';
    done', bs', mem' := CommitFull(heap.mem, buf.first, buf.last, buf.Own(), goal, done, todo, bs, n);
    heap.mem := heap.mem[chain := c.(off := c.off + space)];
    assert heap.mem == mem';
  }

  /** The loop of evbuffer_read that hands out the n bytes read. */
  method Commit(buf: EvBuffer, chainp0: Slot, nvecs: nat, n: nat,
                ghost done0: Cells, ghost todo0: Cells, ghost bs0: seq<byte>, ghost goal: seq<byte>)
    requires Committing(buf.heap.mem, buf.first, buf.last, buf.Own(), goal, done0, todo0, bs0, nvecs)
    requires chainp0 == SlotAfter(buf, done0) && n == |bs0|
    modifies buf`lastWithDatap, buf`data, buf`spare, buf.heap
    ensures Layout(buf.heap.mem, buf.first, buf.last, buf.Lwd(), buf.data, buf.spare) && buf.Homed()
    ensures Flat(buf.data) == goal && buf.data.Cons? && buf.Own() == old(buf.Own())
    ensures Swaps(old(buf.heap.mem), old(buf.Own()), buf.heap.mem, old(buf.Own()))
  {
    hide Committing;
    var heap, chainp, remaining, i := buf.heap, chainp0, n, 0;
    ghost var own, done, todo, bs := buf.Own(), done0, todo0, bs0;
    while i < nvecs
      invariant i <= nvecs && remaining == |bs| && chainp == SlotAfter(buf, done)
      invariant Committing(heap.mem, buf.first, buf.last, own, goal, done, todo, bs, nvecs - i)
      invariant Swaps(old(heap.mem), own, heap.mem, own) && buf.Own() == own
    {
      CommitAt(heap.mem, buf.first, buf.last, own, goal, done, todo, bs, nvecs - i);
      var chain := buf.Deref(chainp);
      var space := heap.mem[chain].SpaceLen();
      if space < remaining {
        done, bs := CommitChunk(buf, chain, space, done, todo, bs, goal, nvecs - i);
        remaining := remaining - space;
        todo := todo.tail;
      } else {
        CommitEnd(buf, chainp, chain, remaining, done, todo, bs, goal, nvecs - i);
        return;
      }
      chainp := NextOf(chain);
      i := i + 1;
    }
    CommitAt(heap.mem, buf.first, buf.last, own, goal, done, todo, bs, nvecs - i);
    assert false;
  }

  /** The chunks to write to are free to be written to. */
  lemma Prepared(mem: Memory, p: Ptr, last: Ptr, lwd: Link, data: Cells, spare: Cells)
    requires Layout(mem, p, last, lwd, data, spare)
    ensures AllFit(mem, Writable(mem, data, spare)) && NoDup(Writable(mem, data, spare))
    ensures Ptrs(Writable(mem, data, spare)) <= Ptrs(Cat(data, spare))
  {
    Ends(mem, p, last, lwd, data, spare);
    SegFit(mem, Head(spare, Null), spare, Null);
    if data.Cons? {
      LastFits(mem, p, data, Head(spare, Null));
    }
  }

  lemma {:induction false} SegFit(mem: Memory, p: Ptr, cs: Cells, q: Ptr)
    requires Seg(mem, p, cs, q)
    ensures AllFit(mem, cs)
    decreases cs
  {
    if cs.Cons? {
      SegFit(mem, mem[p].next, cs.tail, q);
    }
  }

  /** Where the commit loop starts. */
  lemma CommitStart(mem: Memory, p: Ptr, last: Ptr, lwd: Link, data: Cells, spare: Cells, bs: seq<byte>, n: nat)
    returns (done: Cells, todo: Cells)
    requires Layout(mem, p, last, lwd, data, spare) && bs != []
    requires Holding(mem, Writable(mem, data, spare), bs) && Ready(mem, Writable(mem, data, spare), |bs|, n)
    ensures Committing(mem, p, last, Ptrs(Cat(data, spare)), Flat(data) + bs, done, todo, bs, n)
    ensures data.Cons? ==> LastOf(data) in mem
    ensures if data.Cons? && mem[LastOf(data)].SpaceLen() == 0
            then done == data else LwdOf(data) == if done.Nil? then First else Next(LastOf(done))
  {
    Ends(mem, p, last, lwd, data, spare);
    if data.Nil? || mem[LastOf(data)].SpaceLen() == 0 {
      done, todo := data, spare;
      assert Flat(data) + [] == Flat(data);
    } else {
      hide Ready, Holding, Reads;
      done, todo := LastToDo(data, spare);
    }
  }

  /** The last chunk with data and the empty ones. */
  lemma LastToDo(data: Cells, spare: Cells) returns (done: Cells, todo: Cells)
    requires data.Cons? && AllData(data)
    ensures todo.Cons? && todo.p == LastOf(data) && todo.tail == spare && Cat(done, todo) == Cat(data, spare)
    ensures AllData(done) && Flat(done) + todo.data == Flat(data)
    ensures LwdOf(data) == if done.Nil? then First else Next(LastOf(done))
  {
    var d;
    done, d := SplitLast(data);
    var c := Cons(LastOf(data), d, Nil);
    todo := Cons(LastOf(data), d, spare);
    CatAssoc(done, c, spare);
    CatParts(done, c);
    LwdSnoc(done, LastOf(data), d);
    assert d + [] == d;
  }

  lemma {:induction false} ReadyAfter(mem: Memory, mem': Memory, cs: Cells, howmuch: int, n: nat, m: int)
    requires Ready(mem, cs, howmuch, n) && m <= howmuch
    requires forall r :: r in Ptrs(cs) && r in mem ==> r in mem' && mem'[r].SpaceLen() == mem[r].SpaceLen()
    ensures Ready(mem', cs, m, |VecsOf(mem, cs, howmuch, n, true)|)
    decreases n
  {
    if m > 0 {
      var len := if mem[cs.p].SpaceLen() > howmuch then howmuch else mem[cs.p].SpaceLen();
      ReadyAfter(mem, mem', cs.tail, howmuch - len, n - 1, m - mem[cs.p].SpaceLen());
    }
  }

  /** A buffer to which readv wrote: only free memory changed. */
  lemma Received(mem: Memory, p: Ptr, last: Ptr, lwd: Link, data: Cells, spare: Cells, ps: set<Ptr>, mem': Memory)
    requires Layout(mem, p, last, lwd, data, spare) && ps <= Ptrs(Cat(data, spare)) && FreeWrites(mem, ps, mem')
    ensures Layout(mem', p, last, lwd, data, spare) && Writable(mem', data, spare) == Writable(mem, data, spare)
    ensures Swaps(mem, Ptrs(Cat(data, spare)), mem', Ptrs(Cat(data, spare)))
    ensures data.Cons? ==> LastOf(data) in mem && LastOf(data) in mem' && mem'[LastOf(data)].SpaceLen() == mem[LastOf(data)].SpaceLen()
  {
    var own := Ptrs(Cat(data, spare));
    SegKept(mem, ps, mem', p, Cat(data, spare), Null);
    assert mem - own == (mem - ps) - own;
    assert mem' - own == (mem' - ps) - own;
    Ends(mem, p, last, lwd, data, spare);
    if data.Cons? && LastOf(data) !in ps {
      SwapsElsewhere(mem, ps, mem', LastOf(data));
    }
  }

  /** What became of the call of readv. */
  datatype Arrival = Failure | Arrived(bs: seq<byte>)

  /** readv: stores as many of the bytes that arrived as the vectors take. */
  method ReadV(heap: Heap, vecs: seq<IoVec>, arrival: Arrival) returns (n: int)
    requires Fits(heap.mem, vecs) && 0 <= Total(vecs)
    modifies heap
    ensures arrival.Failure? ==> n == -1
    ensures arrival.Arrived? ==> n == Min(|arrival.bs|, Total(vecs))
    ensures n <= 0 ==> heap.mem == old(heap.mem)
    ensures n > 0 ==> heap.mem == Scattered(old(heap.mem), vecs, arrival.bs[..n])
  {
    if arrival.Failure? {
      n := -1;
    } else {
      n := Min(|arrival.bs|, Total(vecs));
      if n > 0 {
        heap.mem := Scattered(heap.mem, vecs, arrival.bs[..n]);
      }
    }
  }

  /** The bytes that arrived and that there is room for. */
  function Taken(arrival: Arrival, howmuch: nat): (bs: seq<byte>)
    ensures |bs| <= howmuch
  {
    match arrival
    case Failure => []
    case Arrived(bs) => bs[..Min(|bs|, howmuch)]
  }

  /** evbuffer_read from the vectors to the end of its loop. */
  method ReadBytes(buf: EvBuffer, howmuch: nat, arrival: Arrival) returns (n: int)
    requires buf.Valid() && buf.HasChunk()
    requires Ready(buf.heap.mem, Writable(buf.heap.mem, buf.data, buf.spare), howmuch, NUM_READ_IOVEC)
    modifies buf`lastWithDatap, buf`data, buf`spare, buf.heap
    ensures n == if arrival.Failure? then -1 else |Taken(arrival, howmuch)|
    ensures Layout(buf.heap.mem, buf.first, buf.last, buf.Lwd(), buf.data, buf.spare) && buf.Homed()
    ensures Flat(buf.data) == Flat(old(buf.data)) + Taken(arrival, howmuch)
    ensures Swaps(old(buf.heap.mem), old(buf.Own()), buf.heap.mem, buf.Own())
  {
    var heap := buf.heap;
    ghost var mem, w := heap.mem, Writable(heap.mem, buf.data, buf.spare);
    var nvecs, vecs, chainp := ReadSetupVecs(buf, howmuch, NUM_READ_IOVEC, true);
    Prepared(mem, buf.first, buf.last, buf.Lwd(), buf.data, buf.spare);
    VecsCover(mem, w, howmuch, NUM_READ_IOVEC);
    CoverFits(mem, vecs, w);
    n := ReadV(heap, vecs, arrival);
    ghost var bs := Taken(arrival, howmuch);
    if n <= 0 {
      assert Flat(buf.data) + [] == Flat(buf.data);
      return;
    }
    ghost var mem1 := ScatterHolds(mem, vecs, w, bs);
    Received(mem, buf.first, buf.last, buf.Lwd(), buf.data, buf.spare, Ptrs(w), mem1);
    ReadyAfter(mem, mem1, w, howmuch, NUM_READ_IOVEC, n);
    ghost var done, todo := CommitStart(mem1, buf.first, buf.last, buf.Lwd(), buf.data, buf.spare, bs, nvecs);
    Commit(buf, chainp, nvecs, n, done, todo, bs, Flat(buf.data) + bs);
  }

  method NoteAdded(buf: EvBuffer, n: nat)
    requires buf.Accounted()
    modifies buf`totalLen, buf`nAddForCb, buf`nDelForCb, buf`reports, buf`settledLen
    ensures buf.totalLen == old(buf.totalLen) + n && buf.Settled()
    ensures buf.reports == old(buf.reports) +
      Report(buf.hasCallbacks, old(buf.settledLen), old(buf.nAddForCb) + n, old(buf.nDelForCb))
  {
    buf.totalLen := buf.totalLen + n;
    buf.nAddForCb := buf.nAddForCb + n;
    InvokeCallbacks(buf);
  }

  /** evbuffer_read: `readable` is what the socket says it holds. Appends exactly
      the bytes that arrived, up to the limits. */
  method Read(buf: EvBuffer, readable: int, howmuch0: int, arrival: Arrival) returns (result: int)
    requires buf.Valid() && buf.Accounted()
    modifies buf, buf.heap
    ensures buf.Valid() && buf.Accounted()
    ensures arrival.Failure? ==> result == -1 && buf.Bytes() == old(buf.Bytes())
    ensures arrival.Arrived? ==>
      var n := if 0 < readable <= 4096 then readable else 4096;
      var k := if howmuch0 < 0 || n < howmuch0 then n else howmuch0;
      var m := if |arrival.bs| <= k then |arrival.bs| else k;
      result == m && buf.Bytes() == old(buf.Bytes()) + arrival.bs[..m]
    ensures buf.Bytes() == old(buf.Bytes()) + Taken(arrival, ReadLimit(readable, howmuch0))
    ensures Swaps(old(buf.heap.mem), old(buf.Own()), buf.heap.mem, buf.Own())
    ensures if result <= 0 then unchanged(buf`totalLen, buf`nAddForCb, buf`nDelForCb, buf`reports, buf`settledLen) else
      buf.Settled() && buf.reports == old(buf.reports) +
        Report(buf.hasCallbacks, old(buf.settledLen), old(buf.nAddForCb) + result, old(buf.nDelForCb))
  {
    hide Layout, Ready, Seg, Flat;
    var n, howmuch := readable, howmuch0;
    if n <= 0 || n > EVBUFFER_MAX_READ {
      n := EVBUFFER_MAX_READ;
    }
    if howmuch < 0 || howmuch > n {
      howmuch := n;
    }
    ExpandFast(buf, howmuch, NUM_READ_IOVEC);
    n := ReadBytes(buf, howmuch, arrival);
    if n == -1 {
      return -1;
    }
    if n == 0 {
      return 0;
    }
    NoteAdded(buf, n);
    result := n;
  }

  /** How much evbuffer_read asks for. */
  function ReadLimit(readable: int, howmuch: int): (r: nat)
    ensures r <= EVBUFFER_MAX_READ && (0 <= howmuch ==> r <= howmuch)
    ensures 0 < readable <= EVBUFFER_MAX_READ ==> r <= readable
    ensures 0 <= howmuch <= readable <= EVBUFFER_MAX_READ ==> r == howmuch
  {
    var n := if readable <= 0 || readable > EVBUFFER_MAX_READ then EVBUFFER_MAX_READ else readable;
    if howmuch < 0 || howmuch > n then n else howmuch
  }
}
