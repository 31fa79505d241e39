/** evbuffer_expand: room for bytes in one piece. */
module EvExpand {
  import opened Segments
  import opened EvBuffers
  import opened EvQueue
  import opened EvRead

  /** The last chunk with data, between the chunks around it. */
  lemma LastData(mem: Memory, p: Ptr, last: Ptr, lwd: Link, data: Cells, spare: Cells)
    returns (front: Cells, d: seq<byte>)
    requires Layout(mem, p, last, lwd, data, spare) && data.Cons?
    ensures data == Cat(front, Cons(LastOf(data), d, Nil)) && d != []
    ensures Cat(data, spare) == Cat(front, Cons(LastOf(data), d, spare))
    ensures LastOf(data) != Null && LastOf(data) in mem && Reads(mem[LastOf(data)], d)
    ensures Seg(mem, p, front, LastOf(data)) && Seg(mem, mem[LastOf(data)].next, spare, Null)
    ensures AllData(front) && NoDup(front) && Ptrs(front) !! Ptrs(spare)
    ensures LastOf(data) !in Ptrs(front) && LastOf(data) !in Ptrs(spare)
    ensures lwd == if front.Nil? then First else Next(LastOf(front))
    ensures Ptrs(Cat(data, spare)) == Ptrs(front) + {LastOf(data)} + Ptrs(spare)
    ensures Flat(data) == Flat(front) + d
  {
    front, d := SplitLast(data);
    var c := Cons(LastOf(data), d, Nil);
    CatAssoc(front, c, spare);
    CatParts(front, c);
    CatParts(data, spare);
    SegCat(mem, p, front, Cons(LastOf(data), d, spare), Null);
    LwdSnoc(front, LastOf(data), d);
    assert d + [] == d;
  }

  /** New memory for the last chunk with data, at the same address, that reads the
      same. */
  lemma Rewritten(mem: Memory, p: Ptr, last: Ptr, lwd: Link, data: Cells, spare: Cells, ch: Chain)
    requires Layout(mem, p, last, lwd, data, spare) && data.Cons?
    requires LastOf(data) in mem ==> ch.next == mem[LastOf(data)].next
    requires forall d :: LastOf(data) in mem && Reads(mem[LastOf(data)], d) ==> Reads(ch, d)
    ensures LastOf(data) in mem
    ensures var mem' := mem[LastOf(data) := ch];
      && Layout(mem', p, last, lwd, data, spare)
      && Swaps(mem, Ptrs(Cat(data, spare)), mem', Ptrs(Cat(data, spare)))
  {
    var front, d := LastData(mem, p, last, lwd, data, spare);
    SegWrite(mem, p, front, Cons(LastOf(data), d, spare), Null, ch, d, spare);
    SwapsOne(mem, Ptrs(Cat(data, spare)), LastOf(data), ch);
  }

  /** A list in which t stands for the last chunk with data. */
  lemma Replaced(front: Cells, c: Ptr, d: seq<byte>, spare: Cells, t: Ptr) returns (data': Cells)
    requires AllData(front) && NoDup(Cat(front, Cons(c, d, spare))) && d != []
    requires t !in Ptrs(Cat(front, Cons(c, d, spare)))
    ensures data' == Cat(front, Cons(t, d, Nil)) && Cat(data', spare) == Cat(front, Cons(t, d, spare))
    ensures NoDup(Cat(data', spare)) && AllData(data') && data'.Cons? && LastOf(data') == t
    ensures Ptrs(Cat(data', spare)) == Ptrs(front) + {t} + Ptrs(spare)
    ensures Flat(data') == Flat(front) + d
    ensures LwdOf(data') == if front.Nil? then First else Next(LastOf(front))
    ensures LastOf(Cat(data', spare)) == if spare.Nil? then t else LastOf(spare)
    ensures LastOf(Cat(front, Cons(c, d, spare))) == if spare.Nil? then c else LastOf(spare)
  {
    data' := Cat(front, Cons(t, d, Nil));
    CatAssoc(front, Cons(t, d, Nil), spare);
    CatParts(front, Cons(t, d, Nil));
    CatParts(front, Cons(t, d, spare));
    CatParts(front, Cons(c, d, spare));
    LwdSnoc(front, t, d);
    assert d + [] == d;
  }

  /** The links once t is in the place of c. */
  lemma Relocated(mem: Memory, p: Ptr, front: Cells, c: Ptr, d: seq<byte>, spare: Cells, t: Ptr, ch: Chain)
    returns (mem2: Memory, mem': Memory)
    requires Seg(mem, p, front, c) && Seg(mem, ch.next, spare, Null) && NoDup(Cat(front, Cons(t, d, spare)))
    requires c !in Ptrs(front) && c !in Ptrs(spare) && t != Null && t != c && Reads(ch, d)
    ensures front.Cons? ==> LastOf(front) in mem && LastOf(front) != t && LastOf(front) != c
    ensures mem2 == (mem - {c})[t := ch]
    ensures var mem1 := if front.Nil? then mem else mem[LastOf(front) := mem[LastOf(front)].(next := t)];
      mem' == (mem1 - {c})[t := ch]
    ensures Seg(mem', if front.Nil? then t else p, Cat(front, Cons(t, d, spare)), Null)
    ensures Swaps(mem2, Ptrs(Cat(front, Cons(t, d, spare))), mem', Ptrs(Cat(front, Cons(t, d, spare))))
  {
    var tail := Cons(t, d, spare);
    mem2 := (mem - {c})[t := ch];
    CatParts(front, tail);
    SegFrame(mem, mem2, p, front, c);
    SegFrame(mem, mem2, ch.next, spare, Null);
    if front.Cons? {
      SegAttach(mem2, p, front, c, tail, Null);
      LastIn(front);
      SegPtrs(mem, p, front, c);
      mem' := mem2[LastOf(front) := mem[LastOf(front)].(next := t)];
      Rearranged(mem, LastOf(front), mem[LastOf(front)].(next := t), c, t, ch);
    } else {
      mem' := mem2;
    }
  }

  /** The last chunk with data moved to the chunk t. */
  lemma Resized(mem0: Memory, mem: Memory, p: Ptr, last: Ptr, lwd: Link, data: Cells, spare: Cells, t: Ptr, ch: Chain)
    returns (data': Cells, mem': Memory)
    requires Layout(mem, p, last, lwd, data, spare) && data.Cons?
    requires mem - {t} == mem0 && t in mem && t != Null && t !in Ptrs(Cat(data, spare))
    requires LastOf(data) in mem ==> ch.next == mem[LastOf(data)].next
    requires forall d :: LastOf(data) in mem && Reads(mem[LastOf(data)], d) ==> Reads(ch, d)
    ensures LastOf(data) in mem && (lwd.Next? ==> lwd.chain in mem && lwd.chain != t && lwd.chain != LastOf(data))
    ensures var mem1 := if lwd.First? then mem else mem[lwd.chain := mem[lwd.chain].(next := t)];
      mem' == (mem1 - {LastOf(data)})[t := ch]
    ensures Layout(mem', if lwd.First? then t else p, if last == LastOf(data) then t else last, lwd, data', spare)
    ensures Flat(data') == Flat(data) && data'.Cons? && LastOf(data') == t
    ensures Swaps(mem0, Ptrs(Cat(data, spare)), mem', Ptrs(Cat(data', spare)))
  {
    var front, d := LastData(mem, p, last, lwd, data, spare);
    data' := Replaced(front, LastOf(data), d, spare, t);
    var mem2;
    mem2, mem' := Relocated(mem, p, front, LastOf(data), d, spare, t, ch);
    SwapsMoved(mem0, mem, mem2, mem', Ptrs(front), Ptrs(spare), LastOf(data), t, ch);
    if spare.Cons? {
      LastIn(spare);
    }
  }

  lemma Rearranged(mem: Memory, a: Ptr, x: Chain, c: Ptr, t: Ptr, y: Chain)
    requires a != c && a != t
    ensures (mem - {c})[t := y][a := x] == (mem[a := x] - {c})[t := y]
  {
  }

  lemma SwapsMoved(mem0: Memory, mem: Memory, mem2: Memory, mem': Memory, a: set<Ptr>, b: set<Ptr>, c: Ptr, t: Ptr, ch: Chain)
    requires mem - {t} == mem0 && mem2 == (mem - {c})[t := ch]
    requires mem' - (a + {t} + b) == mem2 - (a + {t} + b)
    ensures Swaps(mem0, a + {c} + b, mem', a + {t} + b)
  {
    assert mem2 - (a + {t} + b) == mem0 - (a + {c} + b) - {t};
    assert t !in mem0;
  }

  // ----- evbuffer_expand_singlechain

  /** evbuffer_chain_insert_new */
  method InsertNew(buf: EvBuffer, datlen: nat) returns (chain: Ptr)
    requires buf.Valid()
    modifies buf`first, buf`last, buf`lastWithDatap, buf`totalLen, buf`data, buf`spare, buf.heap
    ensures buf.Valid() && buf.data == old(buf.data) && buf.spare == Cons(chain, [], Nil)
    ensures buf.totalLen == old(buf.totalLen)
    ensures chain in buf.heap.mem && datlen <= buf.heap.mem[chain].SpaceLen()
    ensures Swaps(old(buf.heap.mem), old(buf.Own()), buf.heap.mem, buf.Own())
  {
    chain := ChainNew(buf.heap, datlen);
    ghost var mem1 := buf.heap.mem;
    LayoutFresh(old(buf.heap.mem), mem1, chain, buf.first, buf.last, buf.Lwd(), buf.data, buf.spare);
    assert mem1 - (buf.Own() + {chain}) == (mem1 - {chain}) - buf.Own();
    FlatEmpty(buf.spare);
    InsertedValid(buf.data, buf.spare, chain, []);
    var _ := ChainInsert(buf, chain, []);
  }

  /** evbuffer_chain_align on the last chunk with data. */
  method AlignInPlace(buf: EvBuffer, chain: Ptr)
    requires buf.Valid() && buf.data.Cons? && chain == LastOf(buf.data)
    modifies buf.heap
    ensures buf.Valid() && Swaps(old(buf.heap.mem), buf.Own(), buf.heap.mem, buf.Own())
    ensures chain in buf.heap.mem && chain in old(buf.heap.mem)
    ensures buf.heap.mem[chain].SpaceLen() == |old(buf.heap.mem[chain].buffer)| - old(buf.heap.mem[chain].off)
  {
    var heap := buf.heap;
    ghost var _, d := LastData(heap.mem, buf.first, buf.last, buf.Lwd(), buf.data, buf.spare);
    var c := heap.mem[chain];
    forall e | Reads(c, e)
      ensures Reads(Aligned(c), e)
    {
      AlignedReads(c, e);
    }
    AlignedReads(c, d);
    Rewritten(heap.mem, buf.first, buf.last, buf.Lwd(), buf.data, buf.spare, Aligned(c));
    heap.mem := heap.mem[chain := Aligned(c)];
  }

  lemma MovedReads(c: Chain, room: seq<byte>, d: seq<byte>)
    requires Reads(c, d) && c.off <= |room| && 0 < |room|
    ensures Reads(Chain(c.next, 0, c.off, Copied(room, 0, c.buffer[c.misalign..c.misalign + c.off])), d)
  {
  }

  /** The last chunk with data is replaced by a larger one. */
  method Resize(buf: EvBuffer, chainp: Slot, chain: Ptr, datlen: nat) returns (tmp: Ptr)
    requires buf.Valid() && buf.data.Cons? && chain == LastOf(buf.data) && chainp == buf.lastWithDatap
    modifies buf`first, buf`last, buf`data, buf.heap
    ensures buf.Valid() && Flat(buf.data) == Flat(old(buf.data)) && buf.data.Cons? && tmp == LastOf(buf.data)
    ensures tmp in buf.heap.mem && datlen <= buf.heap.mem[tmp].SpaceLen()
    ensures Swaps(old(buf.heap.mem), old(buf.Own()), buf.heap.mem, buf.Own())
  {
    var heap := buf.heap;
    ghost var mem0 := heap.mem;
    ghost var _, d := LastData(heap.mem, buf.first, buf.last, buf.Lwd(), buf.data, buf.spare);
    tmp := ChainNew(heap, heap.mem[chain].off + datlen);
    LayoutFresh(mem0, heap.mem, tmp, buf.first, buf.last, buf.Lwd(), buf.data, buf.spare);
    Ends(heap.mem, buf.first, buf.last, buf.Lwd(), buf.data, buf.spare);
    var c := heap.mem[chain];
    var ch := Chain(c.next, 0, c.off, Copied(heap.mem[tmp].buffer, 0, c.buffer[c.misalign..c.misalign + c.off]));
    forall e | Reads(c, e)
      ensures Reads(ch, e)
    {
      MovedReads(c, heap.mem[tmp].buffer, e);
    }
    ghost var data', mem' := Resized(mem0, heap.mem, buf.first, buf.last, buf.Lwd(), buf.data, buf.spare, tmp, ch);
    assert buf.Deref(chainp) == chain;
    buf.Store(chainp, tmp);
    if buf.last == chain {
      buf.last := tmp;
    }
    heap.mem := (heap.mem - {chain})[tmp := ch];
    assert heap.mem == mem';
    buf.data := data';
  }

  /** There is no data, the first empty chunk has no room behind its window and
      the second one has enough. */
  ghost predicate SecondSpare(mem: Memory, data: Cells, spare: Cells, datlen: nat) {
    && data.Nil? && spare.Cons? && spare.tail.Cons? && spare.p in mem && spare.tail.p in mem
    && mem[spare.p].SpaceLen() == 0 && datlen <= mem[spare.tail.p].SpaceLen()
  }

  /** The chunk that bytes go to next. */
  ghost predicate InPlace(p: Ptr, data: Cells, spare: Cells) {
    p == LastOf(data) || (spare.Cons? && p == spare.p)
  }

  /** The first chunks without data. */
  lemma SpareFacts(mem: Memory, spare: Cells)
    requires Seg(mem, Head(spare, Null), spare, Null) && AllEmpty(spare) && NoDup(spare)
    ensures spare.Cons? ==> spare.p != Null && spare.p in mem && mem[spare.p].off == 0
    ensures spare.Cons? ==> mem[spare.p].next == Head(spare.tail, Null)
    ensures spare.Cons? && spare.tail.Cons? ==>
      && spare.tail.p != Null && spare.tail.p != spare.p
      && spare.tail.p in mem && mem[spare.tail.p].off == 0
  {
  }

  /** The link to the first chunk with room: *lastWithDatap or what follows it. */
  method FirstWithRoom(buf: EvBuffer) returns (chainp: Slot)
    requires buf.Valid()
    ensures chainp.NextOf? ==> chainp.chain in buf.heap.mem
    ensures var chain := buf.Deref(chainp);
      && (chain != Null ==> chain in buf.heap.mem)
      && (if chain == Null then buf.spare.Nil? || (buf.data.Nil? && buf.spare.tail.Nil?)
          else if buf.heap.mem[chain].off != 0
          then buf.data.Cons? && chain == LastOf(buf.data) && chainp == buf.lastWithDatap
               && buf.heap.mem[chain].next == Head(buf.spare, Null)
          else buf.spare.Cons? && chain == (if buf.data.Nil? && buf.heap.mem[buf.spare.p].SpaceLen() == 0
                                            then Head(buf.spare.tail, Null) else buf.spare.p))
  {
    var mem := buf.heap.mem;
    Ends(mem, buf.first, buf.last, buf.Lwd(), buf.data, buf.spare);
    SpareFacts(mem, buf.spare);
    chainp := buf.lastWithDatap;
    if buf.Deref(chainp) != Null && mem[buf.Deref(chainp)].SpaceLen() == 0 {
      chainp := NextOf(buf.Deref(chainp));
    }
  }

  /** The case of evbuffer_expand_singlechain in which the last chunk with data has
      some room, but not enough. */
  method ExpandLast(buf: EvBuffer, chainp: Slot, chain: Ptr, datlen: nat) returns (result: Ptr)
    requires buf.Valid() && buf.data.Cons? && chain == LastOf(buf.data) && chainp == buf.lastWithDatap
    requires chain in buf.heap.mem && buf.heap.mem[chain].next == Head(buf.spare, Null)
    modifies buf`first, buf`last, buf`lastWithDatap, buf`totalLen, buf`data, buf`spare, buf.heap
    ensures buf.Valid() && Flat(buf.data) == Flat(old(buf.data)) && buf.data.Cons?
    ensures buf.totalLen == old(buf.totalLen)
    ensures result in buf.heap.mem && datlen <= buf.heap.mem[result].SpaceLen()
    ensures InPlace(result, buf.data, buf.spare)
    ensures Swaps(old(buf.heap.mem), old(buf.Own()), buf.heap.mem, buf.Own())
  {
    var mem := buf.heap.mem;
    var c := mem[chain];
    if ShouldRealign(c, datlen) {
      AlignInPlace(buf, chain);
      return chain;
    }
    if c.SpaceLen() < |c.buffer| / 8 || c.off > MAX_TO_COPY_IN_EXPAND {
      Ends(mem, buf.first, buf.last, buf.Lwd(), buf.data, buf.spare);
      if c.next != Null && mem[c.next].SpaceLen() >= datlen {
        assert mem - {} == mem;
        return c.next;
      }
      result := InsertNew(buf, datlen);
    } else {
      result := Resize(buf, chainp, chain, datlen);
    }
  }

  /** evbuffer_expand_singlechain: a chunk with datlen bytes of room in one piece.
      It is the chunk that bytes go to next, unless there is no data and the first
      empty chunk is skipped. */
  method ExpandSinglechain(buf: EvBuffer, datlen: nat) returns (result: Ptr)
    requires buf.Valid()
    modifies buf`first, buf`last, buf`lastWithDatap, buf`totalLen, buf`data, buf`spare, buf.heap
    ensures buf.Valid() && buf.Bytes() == old(buf.Bytes()) && buf.totalLen == old(buf.totalLen)
    ensures result in buf.heap.mem && datlen <= buf.heap.mem[result].SpaceLen()
    ensures InPlace(result, buf.data, buf.spare) <==> !old(SecondSpare(buf.heap.mem, buf.data, buf.spare, datlen))
    ensures old(SecondSpare(buf.heap.mem, buf.data, buf.spare, datlen)) ==> result == old(buf.spare.tail.p)
    ensures Swaps(old(buf.heap.mem), old(buf.Own()), buf.heap.mem, buf.Own())
  {
    var heap := buf.heap;
    var chainp := FirstWithRoom(buf);
    Ends(heap.mem, buf.first, buf.last, buf.Lwd(), buf.data, buf.spare);
    SpareFacts(heap.mem, buf.spare);
    var chain := buf.Deref(chainp);
    if chain == Null {
      result := InsertNew(buf, datlen);
    } else if heap.mem[chain].SpaceLen() >= datlen {
      assert heap.mem - buf.Own() == heap.mem - buf.Own();
      result := chain;
    } else if heap.mem[chain].off == 0 {
      result := InsertNew(buf, datlen);
    } else {
      result := ExpandLast(buf, chainp, chain, datlen);
    }
  }
}
