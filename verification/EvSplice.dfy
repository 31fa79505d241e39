/** Moving chunks between two evbuffers. */
module EvSplice {
  import opened Segments
  import opened EvBuffers
  import opened EvQueue

  /** Two buffers over the same memory, with no chunk in common. */
  ghost predicate Apart(a: EvBuffer, b: EvBuffer)
    reads a, b
  {
    a != b && a.heap == b.heap && a.Own() !! b.Own()
  }

  lemma {:induction false} LwdCat(a: Cells, b: Cells)
    requires b.Cons?
    ensures LwdOf(Cat(a, b)) ==
      if b.tail.Cons? then LwdOf(b) else if a.Nil? then First else Next(LastOf(a))
  {
    if a.Cons? {
      LwdCat(a.tail, b);
    }
  }

  /** Data first, then empty chunks. */
  ghost predicate Ordered(cs: Cells) {
    cs.Cons? ==> if cs.data == [] then AllEmpty(cs.tail) else Ordered(cs.tail)
  }

  lemma {:induction false} OrderedCat(data: Cells, spare: Cells)
    requires AllData(data) && AllEmpty(spare)
    ensures Ordered(Cat(data, spare))
  {
    if data.Cons? {
      OrderedCat(data.tail, spare);
    }
  }

  lemma {:induction false} Unordered(a: Cells, empty: Cells, b: Cells)
    requires empty.Cons? && AllEmpty(empty) && b.Cons? && b.data != []
    ensures !Ordered(Cat(Cat(a, empty), b))
  {
    if a.Cons? {
      Unordered(a.tail, empty, b);
      CatParts(Cat(a.tail, empty), b);
    } else {
      CatParts(empty.tail, b);
    }
  }

  /** The second list linked behind the first one: sound exactly if no empty chunk
      comes to stand between the data of the two. */
  lemma Joined(mem: Memory, p1: Ptr, last1: Ptr, lwd1: Link, data1: Cells, spare1: Cells,
               p2: Ptr, last2: Ptr, lwd2: Link, data2: Cells, spare2: Cells)
    requires Layout(mem, p1, last1, lwd1, data1, spare1) && Layout(mem, p2, last2, lwd2, data2, spare2)
    requires data1.Cons? && data2.Cons? && Ptrs(Cat(data1, spare1)) !! Ptrs(Cat(data2, spare2))
    ensures last1 in mem
    ensures var mem', data := mem[last1 := mem[last1].(next := p2)], Cat(Cat(data1, spare1), data2);
      && Seg(mem', p1, Cat(data, spare2), Null) && NoDup(Cat(data, spare2)) && last2 == LastOf(Cat(data, spare2))
      && Swaps(mem, Ptrs(Cat(data1, spare1)) + Ptrs(Cat(data2, spare2)), mem', Ptrs(Cat(data, spare2)))
      && Flat(data) == Flat(data1) + Flat(data2)
    ensures var mem', lwd := mem[last1 := mem[last1].(next := p2)], if lwd2 == First then Next(last1) else lwd2;
      && (Intact(mem', p1, last2, lwd) <==> spare1.Nil?)
      && (spare1.Nil? ==> Layout(mem', p1, last2, lwd, Cat(Cat(data1, spare1), data2), spare2))
  {
    var front, tail := Cat(data1, spare1), Cat(data2, spare2);
    CatNil(data1);
    CatParts(data1, spare1);
    CatParts(front, data2);
    CatParts(front, tail);
    CatAssoc(front, data2, spare2);
    FlatEmpty(spare1);
    SegAttach(mem, p1, front, Null, tail, Null);
    LwdCat(front, data2);
    LwdFirst(data2);
    var mem' := mem[last1 := mem[last1].(next := p2)];
    if spare1.Cons? {
      Unordered(data1, spare1, tail);
      var lwd := if lwd2 == First then Next(last1) else lwd2;
      if Intact(mem', p1, last2, lwd) {
        var data, spare :| Layout(mem', p1, last2, lwd, data, spare);
        SegUnique(mem', p1, Cat(data, spare), Cat(front, tail));
        OrderedCat(data, spare);
      }
    } else {
      assert Layout(mem', p1, last2, if lwd2 == First then Next(last1) else lwd2, Cat(front, data2), spare2);
    }
  }

  /** APPEND_CHAIN */
  method AppendChain(dst: EvBuffer, src: EvBuffer)
    requires dst.Valid() && src.Valid() && Apart(dst, src)
    requires dst.data.Cons? && src.data.Cons?
    modifies dst`last, dst`lastWithDatap, dst`totalLen, dst`data, dst`spare, dst.heap
    ensures dst.Linked() && dst.spare == src.spare
    ensures dst.totalLen == old(dst.totalLen) + src.totalLen
    ensures dst.Bytes() == old(dst.Bytes()) + src.Bytes()
    ensures Intact(dst.heap.mem, dst.first, dst.last, dst.Lwd()) <==> old(dst.spare.Nil?)
    ensures old(dst.spare.Nil?) ==> dst.Valid()
    ensures Swaps(old(dst.heap.mem), old(dst.Own()) + src.Own(), dst.heap.mem, dst.Own())
  {
    var heap := dst.heap;
    Joined(heap.mem, dst.first, dst.last, dst.Lwd(), dst.data, dst.spare,
           src.first, src.last, src.Lwd(), src.data, src.spare);
    heap.mem := heap.mem[dst.last := heap.mem[dst.last].(next := src.first)];
    if src.lastWithDatap == FirstOf(src) {
      dst.lastWithDatap := NextOf(dst.last);
    } else {
      dst.lastWithDatap := src.lastWithDatap;
    }
    dst.last := src.last;
    dst.totalLen := dst.totalLen + src.totalLen;
    dst.data, dst.spare := Cat(Cat(dst.data, dst.spare), src.data), src.spare;
  }

  /** PREPEND_CHAIN */
  method PrependChain(dst: EvBuffer, src: EvBuffer)
    requires dst.Valid() && src.Valid() && Apart(dst, src)
    requires dst.data.Cons? && src.data.Cons?
    modifies dst`first, dst`lastWithDatap, dst`totalLen, dst`data, dst.heap
    ensures dst.Linked()
    ensures dst.totalLen == old(dst.totalLen) + src.totalLen
    ensures dst.Bytes() == src.Bytes() + old(dst.Bytes())
    ensures Intact(dst.heap.mem, dst.first, dst.last, dst.Lwd()) <==> src.spare.Nil?
    ensures src.spare.Nil? ==> dst.Valid()
    ensures Swaps(old(dst.heap.mem), old(dst.Own()) + src.Own(), dst.heap.mem, dst.Own())
  {
    var heap := dst.heap;
    Joined(heap.mem, src.first, src.last, src.Lwd(), src.data, src.spare,
           dst.first, dst.last, dst.Lwd(), dst.data, dst.spare);
    Ends(heap.mem, dst.first, dst.last, dst.Lwd(), dst.data, dst.spare);
    assert src.Own() + dst.Own() == dst.Own() + src.Own();
    heap.mem := heap.mem[src.last := heap.mem[src.last].(next := dst.first)];
    dst.first := src.first;
    dst.totalLen := dst.totalLen + src.totalLen;
    // Never null here: dst holds data.
    dst.lastWithDatap :=
      if dst.Deref(dst.lastWithDatap) == Null then
        if src.lastWithDatap == FirstOf(src) then FirstOf(dst) else src.lastWithDatap
      else if dst.lastWithDatap == FirstOf(dst) then NextOf(src.last)
      else dst.lastWithDatap;
    dst.data := Cat(Cat(src.data, src.spare), dst.data);
  }

  /** The chunks of src, whatever was in dst freed: COPY_CHAIN. */
  method CopyChain(dst: EvBuffer, src: EvBuffer)
    requires dst.Valid() && src.Valid() && Apart(dst, src) && dst.totalLen == 0
    modifies dst`first, dst`last, dst`lastWithDatap, dst`totalLen, dst`data, dst`spare, dst.heap
    ensures dst.Valid() && dst.data == src.data && dst.spare == src.spare && dst.totalLen == src.totalLen
    ensures Swaps(old(dst.heap.mem), old(dst.Own()) + src.Own(), dst.heap.mem, dst.Own())
  {
    ghost var own := dst.Own();
    FreeAllChains(dst.heap, dst.first, Cat(dst.data, dst.spare));
    assert Swaps(old(dst.heap.mem), own, dst.heap.mem, {}) by {
      assert dst.heap.mem - {} == dst.heap.mem;
    }
    LayoutSwaps(old(dst.heap.mem), own, dst.heap.mem, {}, src.first, src.last, src.Lwd(), src.data, src.spare);
    assert old(dst.heap.mem) - (own + src.Own()) == (old(dst.heap.mem) - own) - src.Own();
    dst.first := src.first;
    if src.lastWithDatap == FirstOf(src) {
      dst.lastWithDatap := FirstOf(dst);
    } else {
      dst.lastWithDatap := src.lastWithDatap;
    }
    dst.last := src.last;
    dst.totalLen := src.totalLen;
    dst.data, dst.spare := src.data, src.spare;
  }

  method NoteMoved(outbuf: EvBuffer, inbuf: EvBuffer, n: nat)
    requires outbuf != inbuf
    requires outbuf.settledLen + outbuf.nAddForCb + n == outbuf.totalLen + outbuf.nDelForCb
    requires inbuf.settledLen + inbuf.nAddForCb == inbuf.totalLen + inbuf.nDelForCb + n
    modifies outbuf`nAddForCb, outbuf`nDelForCb, outbuf`reports, outbuf`settledLen
    modifies inbuf`nAddForCb, inbuf`nDelForCb, inbuf`reports, inbuf`settledLen
    ensures outbuf.Settled() && inbuf.Settled()
    ensures outbuf.reports == old(outbuf.reports) +
      Report(outbuf.hasCallbacks, old(outbuf.settledLen), old(outbuf.nAddForCb) + n, old(outbuf.nDelForCb))
    ensures inbuf.reports == old(inbuf.reports) +
      Report(inbuf.hasCallbacks, old(inbuf.settledLen), old(inbuf.nAddForCb), old(inbuf.nDelForCb) + n)
  {
    inbuf.nDelForCb := inbuf.nDelForCb + n;
    outbuf.nAddForCb := outbuf.nAddForCb + n;
    InvokeCallbacks(inbuf);
    InvokeCallbacks(outbuf);
  }

  /** When joining leaves the buffer sound; `front` is the one whose chunks come
      first. */
  ghost predicate Joins(outbuf: EvBuffer, inbuf: EvBuffer, front: EvBuffer)
    reads outbuf, inbuf, front
  {
    outbuf == inbuf || inbuf.totalLen == 0 || outbuf.totalLen == 0 || front.spare.Nil?
  }

  /** evbuffer_add_buffer */
  method AddBuffer(outbuf: EvBuffer, inbuf: EvBuffer)
    requires outbuf.Valid() && outbuf.Accounted()
    requires inbuf.Valid() && inbuf.Accounted()
    requires outbuf != inbuf ==> Apart(outbuf, inbuf)
    modifies outbuf, inbuf, outbuf.heap
    ensures outbuf.Linked() && inbuf.Valid() && outbuf.Accounted() && inbuf.Accounted()
    ensures outbuf != inbuf ==> Apart(outbuf, inbuf)
    ensures Intact(outbuf.heap.mem, outbuf.first, outbuf.last, outbuf.Lwd()) <==> old(Joins(outbuf, inbuf, outbuf))
    ensures old(Joins(outbuf, inbuf, outbuf)) ==> outbuf.Valid()
    ensures old(outbuf.Tight() && inbuf.Tight()) ==> outbuf.Tight() && inbuf.Tight()
    ensures Swaps(old(outbuf.heap.mem), old(outbuf.Own() + inbuf.Own()), outbuf.heap.mem, outbuf.Own() + inbuf.Own())
    ensures if old(inbuf.totalLen) == 0 || outbuf == inbuf then unchanged(outbuf) && unchanged(inbuf) else
      && outbuf.Bytes() == old(outbuf.Bytes() + inbuf.Bytes()) && inbuf.Bytes() == []
      && outbuf.Settled() && inbuf.Settled()
      && outbuf.reports == old(outbuf.reports) +
           Report(outbuf.hasCallbacks, old(outbuf.settledLen),
                  old(outbuf.nAddForCb + inbuf.totalLen), old(outbuf.nDelForCb))
      && inbuf.reports == old(inbuf.reports) +
           Report(inbuf.hasCallbacks, old(inbuf.settledLen),
                  old(inbuf.nAddForCb), old(inbuf.nDelForCb + inbuf.totalLen))
  {
    hide Seg, NoDup, AllData, LwdOf, LastOf;
    var inTotalLen := inbuf.totalLen;
    if inTotalLen == 0 || outbuf == inbuf {
      FlatEmpty(outbuf.spare);
      return;
    }
    if outbuf.totalLen == 0 {
      CopyChain(outbuf, inbuf);
    } else {
      AppendChain(outbuf, inbuf);
    }
    ZeroChain(inbuf);
    NoteMoved(outbuf, inbuf, inTotalLen);
  }

  /** evbuffer_prepend_buffer */
  method PrependBuffer(outbuf: EvBuffer, inbuf: EvBuffer)
    requires outbuf.Valid() && outbuf.Accounted()
    requires inbuf.Valid() && inbuf.Accounted()
    requires outbuf != inbuf ==> Apart(outbuf, inbuf)
    modifies outbuf, inbuf, outbuf.heap
    ensures outbuf.Linked() && inbuf.Valid() && outbuf.Accounted() && inbuf.Accounted()
    ensures outbuf != inbuf ==> Apart(outbuf, inbuf)
    ensures Intact(outbuf.heap.mem, outbuf.first, outbuf.last, outbuf.Lwd()) <==> old(Joins(outbuf, inbuf, inbuf))
    ensures old(Joins(outbuf, inbuf, inbuf)) ==> outbuf.Valid()
    ensures old(outbuf.Tight() && inbuf.Tight()) ==> outbuf.Tight() && inbuf.Tight()
    ensures Swaps(old(outbuf.heap.mem), old(outbuf.Own() + inbuf.Own()), outbuf.heap.mem, outbuf.Own() + inbuf.Own())
    ensures if old(inbuf.totalLen) == 0 || outbuf == inbuf then unchanged(outbuf) && unchanged(inbuf) else
      && outbuf.Bytes() == old(inbuf.Bytes() + outbuf.Bytes()) && inbuf.Bytes() == []
      && outbuf.Settled() && inbuf.Settled()
      && outbuf.reports == old(outbuf.reports) +
           Report(outbuf.hasCallbacks, old(outbuf.settledLen),
                  old(outbuf.nAddForCb + inbuf.totalLen), old(outbuf.nDelForCb))
      && inbuf.reports == old(inbuf.reports) +
           Report(inbuf.hasCallbacks, old(inbuf.settledLen),
                  old(inbuf.nAddForCb), old(inbuf.nDelForCb + inbuf.totalLen))
  {
    hide Seg, NoDup, AllData, LwdOf, LastOf;
    var inTotalLen := inbuf.totalLen;
    if inTotalLen == 0 || outbuf == inbuf {
      FlatEmpty(outbuf.spare);
      return;
    }
    if outbuf.totalLen == 0 {
      CopyChain(outbuf, inbuf);
    } else {
      PrependChain(outbuf, inbuf);
    }
    ZeroChain(inbuf);
    NoteMoved(outbuf, inbuf, inTotalLen);
  }

  // ----- evbuffer_remove_buffer

  /** advance_last_with_data, from the link behind a to the one that reaches the
      last chunk. */
  method AdvanceLastWithData(buf: EvBuffer, ghost a0: Cells, ghost b0: Cells)
    requires Seg(buf.heap.mem, buf.first, Cat(a0, b0), Null) && AllData(b0) && b0.Cons?
    requires buf.lastWithDatap == SlotAfter(buf, a0)
    modifies buf`lastWithDatap
    ensures buf.Homed() && buf.Lwd() == LwdOf(Cat(a0, b0))
  {
    var mem := buf.heap.mem;
    ghost var a, b := a0, b0;
    Reached(mem, buf.first, a, b);
    if buf.Deref(buf.lastWithDatap) == Null {
      return;
    }
    while mem[buf.Deref(buf.lastWithDatap)].next != Null
          && mem[mem[buf.Deref(buf.lastWithDatap)].next].off != 0
      invariant Seg(mem, buf.first, Cat(a, b), Null) && AllData(b) && b.Cons? && Cat(a, b) == Cat(a0, b0)
      invariant buf.lastWithDatap == SlotAfter(buf, a)
      invariant buf.lastWithDatap.NextOf? ==> buf.lastWithDatap.chain in mem
      invariant buf.Deref(buf.lastWithDatap) == b.p && b.p in mem
      invariant mem[b.p].next == Head(b.tail, Null) && (b.tail.Cons? ==> b.tail.p in mem)
      decreases b
    {
      buf.lastWithDatap := NextOf(buf.Deref(buf.lastWithDatap));
      ghost var c := Cons(b.p, b.data, Nil);
      CatAssoc(a, c, b.tail);
      CatParts(a, c);
      a, b := Cat(a, c), b.tail;
      Reached(mem, buf.first, a, b);
    }
    Reached(mem, buf.first, a, b);
    LwdCat(a, b);
  }

  /** What is behind the chunks a of a list. */
  lemma Reached(mem: Memory, p: Ptr, a: Cells, b: Cells)
    requires Seg(mem, p, Cat(a, b), Null) && AllData(b)
    ensures a.Cons? ==> LastOf(a) in mem && mem[LastOf(a)].next == Head(b, Null)
    ensures a.Nil? ==> p == Head(b, Null)
    ensures b.Cons? ==> b.p in mem && b.p != Null && mem[b.p].next == Head(b.tail, Null)
    ensures b.Cons? && b.tail.Cons? ==> b.tail.p != Null && b.tail.p in mem && mem[b.tail.p].off != 0
  {
    SegCat(mem, p, a, b, Null);
    LwdTarget(mem, p, a, Head(b, Null));
  }

  /** The loop of evbuffer_remove_buffer over the chunks that n covers wholly;
      its assertion never fails. */
  method ScanWhole(src: EvBuffer, n0: nat)
    returns (chain: Ptr, previous: Ptr, nread: nat, n: nat, ghost moved: Cells, ghost rest: Cells)
    requires src.Valid() && n0 < src.totalLen
    modifies src`lastWithDatap
    ensures src.data == Cat(moved, rest) && rest.Cons? && chain == rest.p
    ensures n < |rest.data| && nread + n == n0 && nread == |Flat(moved)|
    ensures nread == 0 <==> moved.Nil?
    ensures moved.Cons? ==> previous == LastOf(moved)
    ensures src.Homed() && src.Lwd() == LwdOf(rest)
  {
    var mem := src.heap.mem;
    chain, previous, nread, n, moved, rest := src.first, src.first, 0, n0, Nil, src.data;
    ScanFacts(mem, src.first, src.last, src.Lwd(), src.data, src.spare, moved, rest);
    while mem[chain].off <= n
      invariant src.data == Cat(moved, rest) && rest.Cons? && chain == rest.p && chain in mem
      invariant mem[chain].off == |rest.data| && 0 < |rest.data|
      invariant nread + n == n0 && nread == |Flat(moved)| && n < |Flat(rest)|
      invariant nread == 0 <==> moved.Nil?
      invariant moved.Cons? ==> previous == LastOf(moved)
      invariant src.Homed() && src.Lwd() == LwdOf(rest)
      decreases rest
    {
      ScanFacts(mem, src.first, src.last, LwdOf(src.data), src.data, src.spare, moved, rest);
      assert chain != src.Deref(src.lastWithDatap);
      nread := nread + mem[chain].off;
      n := n - mem[chain].off;
      previous := chain;
      if src.lastWithDatap == NextOf(chain) {
        src.lastWithDatap := FirstOf(src);
      }
      chain := mem[chain].next;
      ghost var c := Cons(rest.p, rest.data, Nil);
      CatAssoc(moved, c, rest.tail);
      CatParts(moved, c);
      moved, rest := Cat(moved, c), rest.tail;
      ScanFacts(mem, src.first, src.last, LwdOf(src.data), src.data, src.spare, moved, rest);
    }
  }

  /** The rest of a list is laid out like a list. */
  lemma Suffix(mem: Memory, p: Ptr, last: Ptr, lwd: Link, data: Cells, spare: Cells, moved: Cells, rest: Cells)
    requires Layout(mem, p, last, lwd, data, spare) && data == Cat(moved, rest) && rest.Cons?
    ensures Layout(mem, rest.p, last, LwdOf(rest), rest, spare)
    ensures Seg(mem, p, moved, rest.p) && NoDup(moved) && Ptrs(moved) !! Ptrs(Cat(rest, spare)) && AllData(moved)
    ensures Ptrs(Cat(data, spare)) == Ptrs(moved) + Ptrs(Cat(rest, spare))
    ensures Flat(data) == Flat(moved) + Flat(rest)
  {
    CatAssoc(moved, rest, spare);
    CatParts(moved, rest);
    CatParts(moved, Cat(rest, spare));
    CatParts(rest, spare);
    SegCat(mem, p, moved, Cat(rest, spare), Null);
  }

  /** What the scan sees at the first chunk of `rest`. */
  lemma ScanFacts(mem: Memory, p: Ptr, last: Ptr, lwd: Link, data: Cells, spare: Cells, moved: Cells, rest: Cells)
    requires Layout(mem, p, last, lwd, data, spare) && data == Cat(moved, rest) && rest.Cons?
    ensures rest.p in mem && mem[rest.p].off == |rest.data| && 0 < |rest.data|
    ensures mem[rest.p].next == Head(Cat(rest.tail, spare), Null)
    ensures LwdOf(rest).First? <==> rest.tail.Nil?
    ensures LwdOf(rest).Next? ==> LwdOf(rest).chain in mem && mem[LwdOf(rest).chain].next != rest.p
    ensures LwdOf(rest.tail) == if LwdOf(rest) == Next(rest.p) then First else LwdOf(rest)
    ensures moved.Nil? ==> p == rest.p
    ensures |Flat(data)| == |Flat(moved)| + |Flat(rest)|
  {
    Suffix(mem, p, last, lwd, data, spare, moved, rest);
    Ends(mem, rest.p, last, LwdOf(rest), rest, spare);
    LwdTail(rest);
    hide LwdOf, LastOf, NoDup, Ptrs;
  }

  /** The link without the first chunk. */
  lemma LwdTail(cs: Cells)
    requires cs.Cons? && NoDup(cs)
    ensures LwdOf(cs.tail) == if LwdOf(cs) == Next(cs.p) then First else LwdOf(cs)
    ensures LwdOf(cs).First? <==> cs.tail.Nil?
    ensures cs.tail.Cons? ==> LastOf(cs) != cs.p
  {
    LwdFirst(cs);
    LwdFirst(cs.tail);
    if cs.tail.Cons? {
      LastIn(cs.tail);
    }
  }

  /** Cutting a list behind `moved`. */
  lemma CutBehind(mem: Memory, p: Ptr, last: Ptr, lwd: Link, data: Cells, spare: Cells, moved: Cells, rest: Cells)
    returns (mem': Memory)
    requires Layout(mem, p, last, lwd, data, spare) && data == Cat(moved, rest) && moved.Cons? && rest.Cons?
    ensures p == moved.p && LastOf(moved) in mem && LastOf(moved) in Ptrs(moved)
    ensures mem' == mem[LastOf(moved) := mem[LastOf(moved)].(next := Null)]
    ensures Seg(mem', p, moved, Null) && NoDup(moved) && AllData(moved)
    ensures Layout(mem', rest.p, last, LwdOf(rest), rest, spare)
    ensures Ptrs(Cat(data, spare)) == Ptrs(moved) + Ptrs(Cat(rest, spare)) && Ptrs(moved) !! Ptrs(Cat(rest, spare))
    ensures Swaps(mem, Ptrs(moved), mem', Ptrs(moved))
    ensures Flat(data) == Flat(moved) + Flat(rest)
  {
    Suffix(mem, p, last, lwd, data, spare, moved, rest);
    CatNil(moved);
    LastIn(moved);
    SegAttach(mem, p, moved, rest.p, Nil, Null);
    mem' := mem[LastOf(moved) := mem[LastOf(moved)].(next := Null)];
    LayoutSwaps(mem, Ptrs(moved), mem', Ptrs(moved), rest.p, last, LwdOf(rest), rest, spare);
  }

  /** The chunks `moved` leave one list for the end of another one, whose empty
      chunks are freed. */
  lemma Spliced(mem: Memory, p1: Ptr, last1: Ptr, lwd1: Link, data1: Cells, spare1: Cells,
                p2: Ptr, last2: Ptr, lwd2: Link, data2: Cells, spare2: Cells, moved: Cells, rest: Cells)
    returns (mem': Memory)
    requires Layout(mem, p1, last1, lwd1, data1, spare1) && Layout(mem, p2, last2, lwd2, data2, spare2)
    requires Ptrs(Cat(data1, spare1)) !! Ptrs(Cat(data2, spare2))
    requires data2 == Cat(moved, rest) && moved.Cons? && rest.Cons?
    ensures LastOf(moved) in mem && (data1.Cons? ==> LastOf(data1) in mem && LastOf(data1) != LastOf(moved))
    ensures LastOf(moved) !in Ptrs(spare1)
    ensures mem' == Relinked(mem, data1, spare1, p2)[LastOf(moved) := mem[LastOf(moved)].(next := Null)]
    ensures Seg(mem', if data1.Nil? then p2 else p1, Cat(data1, moved), Null)
    ensures NoDup(Cat(data1, moved)) && AllData(Cat(data1, moved)) && AllData(moved)
    ensures LastOf(Cat(data1, moved)) == LastOf(moved)
    ensures Flat(Cat(data1, moved)) == Flat(data1) + Flat(moved) && Flat(data2) == Flat(moved) + Flat(rest)
    ensures Layout(mem', rest.p, last2, LwdOf(rest), rest, spare2)
    ensures Ptrs(Cat(data1, moved)) !! Ptrs(Cat(rest, spare2))
    ensures Swaps(mem, Ptrs(Cat(data1, spare1)) + Ptrs(Cat(data2, spare2)),
                  mem', Ptrs(Cat(data1, moved)) + Ptrs(Cat(rest, spare2)))
  {
    var mem1 := CutBehind(mem, p2, last2, lwd2, data2, spare2, moved, rest);
    LayoutSwaps(mem, Ptrs(moved), mem1, Ptrs(moved), p1, last1, lwd1, data1, spare1);
    NewTail(mem1, p1, data1, spare1, moved, Null);
    Ends(mem, p1, last1, lwd1, data1, spare1);
    CatParts(data1, moved);
    mem' := Relinked(mem1, data1, spare1, p2);
    RelinkWrite(mem, data1, spare1, p2, LastOf(moved), mem[LastOf(moved)].(next := Null));
    LayoutSwaps(mem1, Ptrs(Cat(data1, spare1)) + Ptrs(moved), mem', Ptrs(Cat(data1, moved)),
                rest.p, last2, LwdOf(rest), rest, spare2);
    SwapsTwo(mem, mem1, mem', Ptrs(moved), Ptrs(Cat(data1, spare1)), Ptrs(Cat(rest, spare2)), Ptrs(Cat(data1, moved)));
  }

  lemma RelinkWrite(mem: Memory, data: Cells, spare: Cells, q: Ptr, x: Ptr, ch: Chain)
    requires data.Cons? ==> LastOf(data) in mem && x != LastOf(data)
    requires x !in Ptrs(spare)
    ensures Relinked(mem[x := ch], data, spare, q) == Relinked(mem, data, spare, q)[x := ch]
  {
    assert mem[x := ch] - Ptrs(spare) == (mem - Ptrs(spare))[x := ch];
  }

  lemma SwapsTwo(mem: Memory, mem1: Memory, mem': Memory, a: set<Ptr>, b: set<Ptr>, c: set<Ptr>, d: set<Ptr>)
    requires Swaps(mem, a, mem1, a) && Swaps(mem1, b + a, mem', d)
    ensures Swaps(mem, b + (a + c), mem', d + c)
  {
    assert mem - (b + (a + c)) == (mem - a) - b - c;
    assert mem1 - (b + a) == (mem1 - a) - b;
    assert mem' - (d + c) == (mem' - d) - c;
  }

  /** evbuffer_free_trailing_empty_chains, and the link where chunks can be put. */
  method FreeTrailingEmptyChains(buf: EvBuffer) returns (ch: Slot)
    requires buf.Valid()
    modifies buf`first, buf.heap
    ensures ch == if buf.data.Nil? then FirstOf(buf) else NextOf(LastOf(buf.data))
    ensures buf.first == if buf.data.Nil? then Null else old(buf.first)
    ensures buf.data.Cons? ==> old(buf.first) != Null && LastOf(buf.data) in old(buf.heap.mem)
    ensures buf.heap.mem == Relinked(old(buf.heap.mem), buf.data, buf.spare, Null)
  {
    Ends(buf.heap.mem, buf.first, buf.last, buf.Lwd(), buf.data, buf.spare);
    FullVictims(buf.spare);
    FlatEmpty(buf.spare);
    CatNil(buf.data);
    ch := FirstVictim(buf);
    if buf.Deref(ch) != Null {
      FreeAllChains(buf.heap, buf.Deref(ch), buf.spare);
      buf.Store(ch, Null);
    }
  }

  /** The pointer surgery of evbuffer_remove_buffer. */
  method LinkChains(src: EvBuffer, dst: EvBuffer, chain: Ptr, previous: Ptr)
    requires dst.Valid() && src != dst && src.heap == dst.heap
    requires previous in dst.heap.mem && previous !in Ptrs(dst.spare)
    requires dst.data.Cons? ==> previous != LastOf(dst.data)
    modifies dst`first, dst`last, src`first, dst.heap
    ensures dst.first == (if dst.data.Nil? then old(src.first) else old(dst.first))
    ensures dst.last == previous && src.first == chain
    ensures dst.data.Cons? ==> LastOf(dst.data) in old(dst.heap.mem)
    ensures dst.heap.mem == Relinked(old(dst.heap.mem), dst.data, dst.spare, old(src.first))
                            [previous := old(dst.heap.mem[previous]).(next := Null)]
  {
    var chp := FreeTrailingEmptyChains(dst);
    if dst.first == Null {
      dst.first := src.first;
    } else {
      dst.Store(chp, src.first);
    }
    dst.last := previous;
    dst.heap.mem := dst.heap.mem[previous := dst.heap.mem[previous].(next := Null)];
    src.first := chain;
  }

  /** The chunks `moved`, all that come before `chain` in src, go to dst. */
  method SpliceChains(src: EvBuffer, dst: EvBuffer, chain: Ptr, previous: Ptr, nread: nat,
                      ghost moved: Cells, ghost rest: Cells)
    requires dst.Valid() && Apart(dst, src)
    requires Layout(src.heap.mem, src.first, src.last, LwdOf(src.data), src.data, src.spare)
    requires src.data == Cat(moved, rest) && moved.Cons? && rest.Cons?
    requires chain == rest.p && previous == LastOf(moved) && nread == |Flat(moved)|
    modifies dst`first, dst`last, dst`lastWithDatap, dst`totalLen, dst`data, dst`spare, src`first, src`data, src.heap
    ensures dst.Valid() && dst.spare.Nil? && dst.Bytes() == old(dst.Bytes()) + Flat(moved)
    ensures dst.totalLen == old(dst.totalLen) + nread
    ensures Layout(src.heap.mem, src.first, src.last, LwdOf(src.data), src.data, src.spare) && src.data == rest
    ensures Apart(dst, src)
    ensures Swaps(old(dst.heap.mem), old(dst.Own() + src.Own()), dst.heap.mem, dst.Own() + src.Own())
  {
    ghost var mem' := Spliced(dst.heap.mem, dst.first, dst.last, dst.Lwd(), dst.data, dst.spare,
                              src.first, src.last, LwdOf(src.data), src.data, src.spare, moved, rest);
    LinkChains(src, dst, chain, previous);
    assert dst.heap.mem == mem';
    ghost var a, b := AdvanceFrom(dst.data, moved);
    AdvanceLastWithData(dst, a, b);
    CatNil(Cat(dst.data, moved));
    dst.totalLen := dst.totalLen + nread;
    dst.data, dst.spare, src.data := Cat(dst.data, moved), Nil, rest;
  }

  /** Where lastWithDatap points once more chunks with data follow. */
  lemma {:induction false} AdvanceFrom(data: Cells, moved: Cells) returns (a: Cells, b: Cells)
    requires AllData(data) && AllData(moved) && moved.Cons?
    ensures Cat(data, moved) == Cat(a, b) && b.Cons? && AllData(b)
    ensures LwdOf(data) == if a.Nil? then First else Next(LastOf(a))
  {
    if data.Nil? || data.tail.Nil? {
      a, b := Nil, Cat(data, moved);
      CatParts(data, moved);
    } else {
      var a1;
      a1, b := AdvanceFrom(data.tail, moved);
      a := Cons(data.p, data.data, a1);
      LwdFirst(data);
      LwdFirst(data.tail);
    }
  }

  lemma Pieces(dst: seq<byte>, total: seq<byte>, moved: seq<byte>, rest: seq<byte>, n: nat, k: nat)
    requires total == moved + rest && n <= |rest| && k == |moved| + n
    ensures dst + moved + rest[..n] == dst + total[..k] && total[k..] == rest[n..]
  {
  }

  /** The whole chunks that evbuffer_remove_buffer moves; dst is left alone if
      there are none. */
  method MoveWhole(src: EvBuffer, dst: EvBuffer, datlen: nat)
    returns (chain: Ptr, n: nat, ghost moved: seq<byte>)
    requires src.Valid() && dst.Valid() && Apart(dst, src)
    requires dst.Accounted() && 0 < datlen < src.totalLen
    modifies src`first, src`lastWithDatap, src`data, dst, dst.heap
    ensures dst.Valid() && Apart(dst, src) && dst.Accounted()
    ensures src.data.Cons? && chain == src.data.p && n < |src.data.data| && old(src.data).Cons?
    ensures datlen < |old(src.data).data| ==> n == datlen && unchanged(dst) && dst.heap.mem == old(dst.heap.mem)
    ensures datlen >= |old(src.data).data| ==> dst.spare.Nil?
    ensures Layout(src.heap.mem, src.first, src.last, src.Lwd(), src.data, src.spare) && src.Homed()
    ensures datlen == |moved| + n && old(src.Bytes()) == moved + src.Bytes()
    ensures dst.Bytes() == old(dst.Bytes()) + moved && dst.nAddForCb + n == old(dst.nAddForCb) + datlen
    ensures Swaps(old(dst.heap.mem), old(dst.Own() + src.Own()), dst.heap.mem, dst.Own() + src.Own())
    ensures unchanged(dst`nDelForCb, dst`reports, dst`settledLen)
  {
    hide Seg, NoDup, AllData, AllEmpty, LwdOf;
    var previous, nread;
    ghost var gone, rest;
    chain, previous, nread, n, gone, rest := ScanWhole(src, datlen);
    moved := Flat(gone);
    CatParts(gone, rest);
    FirstMoved(src.data, gone, rest);
    if nread != 0 {
      SpliceChains(src, dst, chain, previous, nread, gone, rest);
      dst.nAddForCb := dst.nAddForCb + nread;
    } else {
      assert moved == [] && old(dst.Bytes()) + [] == old(dst.Bytes());
    }
  }

  /** Chunks are moved whole exactly if the first one is. */
  lemma FirstMoved(data: Cells, gone: Cells, rest: Cells)
    requires data == Cat(gone, rest) && rest.Cons?
    ensures data.Cons? && if gone.Nil? then data == rest else |data.data| <= |Flat(gone)|
  {
  }

  /** A change elsewhere leaves a list as sound as it was. */
  lemma IntactElsewhere(mem: Memory, own: set<Ptr>, mem': Memory, own': set<Ptr>,
                        first: Ptr, last: Ptr, lwd: Link, cells: Cells)
    requires Seg(mem, first, cells, Null) && Ptrs(cells) !! own && Swaps(mem, own, mem', own')
    ensures Seg(mem', first, cells, Null) && Ptrs(cells) !! own'
    ensures Intact(mem', first, last, lwd) <==> Intact(mem, first, last, lwd)
  {
    SegSwaps(mem, own, mem', own', first, cells, Null);
    if Intact(mem, first, last, lwd) {
      var data, spare :| Layout(mem, first, last, lwd, data, spare);
      SegUnique(mem, first, Cat(data, spare), cells);
      assert Layout(mem', first, last, lwd, data, spare);
    }
    if Intact(mem', first, last, lwd) {
      var data, spare :| Layout(mem', first, last, lwd, data, spare);
      SegUnique(mem', first, Cat(data, spare), cells);
      assert Layout(mem, first, last, lwd, data, spare);
    }
  }

  /** The part of the next chunk that is copied. */
  method CopyPart(src: EvBuffer, dst: EvBuffer, chain: Ptr, n: nat) returns (aborted: bool)
    requires dst.Valid() && Apart(dst, src) && dst.Accounted()
    requires Layout(src.heap.mem, src.first, src.last, LwdOf(src.data), src.data, src.spare)
    requires src.data.Cons? && chain == src.data.p && n < |src.data.data|
    modifies dst, src`data, src.heap
    ensures aborted <==> old(AddAborts(dst.heap.mem, dst.last, dst.spare, n))
    ensures n <= |Flat(old(src.data))|
    ensures !aborted ==>
      && dst.Linked() && Apart(dst, src) && dst.Settled()
      && dst.Bytes() == old(dst.Bytes()) + Flat(old(src.data))[..n]
      && dst.reports == old(dst.reports) +
           Report(dst.hasCallbacks, old(dst.settledLen), old(dst.nAddForCb) + n, old(dst.nDelForCb))
      && Layout(src.heap.mem, src.first, src.last, LwdOf(old(src.data)), src.data, src.spare)
      && Flat(src.data) == Flat(old(src.data))[n..]
      && Swaps(old(dst.heap.mem), old(dst.Own() + src.Own()), dst.heap.mem, dst.Own() + src.Own())
      && (Intact(dst.heap.mem, dst.first, dst.last, dst.Lwd()) <==>
          old(AddKeeps(dst.heap.mem, dst.last, dst.data, dst.spare, n)))
    ensures old(AddKeeps(dst.heap.mem, dst.last, dst.data, dst.spare, n)) ==> dst.Valid()
    ensures old(dst.Tight()) ==> dst.Tight()
  {
    var heap := src.heap;
    var c := heap.mem[chain];
    TakeReads(c, src.data.data, n);
    TakeConcat(src.data.data, Flat(src.data.tail), n);
    ghost var own := dst.Own();
    aborted := Add(dst, c.buffer[c.misalign..c.misalign + n]);
    if aborted {
      return;
    }
    LayoutSwaps(old(heap.mem), own, heap.mem, dst.Own(), src.first, src.last, LwdOf(src.data), src.data, src.spare);
    ghost var data', mem' := CutFront(heap.mem, chain, src.last, LwdOf(src.data), src.data, src.spare, n);
    IntactElsewhere(heap.mem, src.Own(), mem', src.Own(), dst.first, dst.last, dst.Lwd(), Cat(dst.data, dst.spare));
    SwapsJoin(old(heap.mem), own, heap.mem, dst.Own(), src.Own(), mem');
    heap.mem := heap.mem[chain := heap.mem[chain].(misalign := heap.mem[chain].misalign + n,
                                                   off := heap.mem[chain].off - n)];
    assert heap.mem == mem';
    src.data := data';
  }

  lemma SwapsJoin(mem: Memory, a: set<Ptr>, mem1: Memory, a': set<Ptr>, b: set<Ptr>, mem': Memory)
    requires Swaps(mem, a, mem1, a') && Swaps(mem1, b, mem', b)
    ensures Swaps(mem, a + b, mem', a' + b)
  {
    assert mem - (a + b) == (mem - a) - b;
    assert mem' - (a' + b) == (mem' - b) - a';
    assert mem1 - b - a' == (mem1 - a') - b;
  }

  method NoteRemoved(src: EvBuffer, dst: EvBuffer, n: nat)
    requires src != dst && src.Accounted() && dst.Settled() && n <= src.totalLen
    modifies src`totalLen, src`nAddForCb, src`nDelForCb, src`reports, src`settledLen
    modifies dst`nAddForCb, dst`nDelForCb, dst`reports, dst`settledLen
    ensures src.totalLen == old(src.totalLen) - n && src.Settled()
    ensures dst.Settled() && dst.reports == old(dst.reports)
    ensures src.reports == old(src.reports) +
      Report(src.hasCallbacks, old(src.settledLen), old(src.nAddForCb), old(src.nDelForCb) + n)
  {
    src.totalLen := src.totalLen - n;
    src.nDelForCb := src.nDelForCb + n;
    InvokeCallbacks(dst);
    InvokeCallbacks(src);
  }

  // ----- what evbuffer_remove_buffer does to a destination with spare empty chunks

  /** Only part of the first chunk is asked for, so that nothing is linked over. */
  ghost predicate OnlyCopies(src: EvBuffer, datlen: nat)
    reads src
  {
    src.data.Cons? && datlen < |src.data.data|
  }

  ghost predicate RemoveAborts(src: EvBuffer, dst: EvBuffer, datlen: nat)
    reads src, dst, dst.heap
  {
    && dst != src && 0 < datlen < src.totalLen
    && OnlyCopies(src, datlen) && AddAborts(dst.heap.mem, dst.last, dst.spare, datlen)
  }

  ghost predicate RemoveKeeps(src: EvBuffer, dst: EvBuffer, datlen: nat)
    reads src, dst, dst.heap
  {
    if datlen == 0 || dst == src then true
    else if datlen >= src.totalLen then Joins(dst, src, dst)
    else !OnlyCopies(src, datlen) || AddKeeps(dst.heap.mem, dst.last, dst.data, dst.spare, datlen)
  }

  /** The whole chunks, and then the part. */
  method MovePart(src: EvBuffer, dst: EvBuffer, datlen: nat) returns (aborted: bool)
    requires src.Valid() && dst.Valid() && Apart(dst, src)
    requires dst.Accounted() && 0 < datlen < src.totalLen
    modifies src`first, src`lastWithDatap, src`data, dst, dst.heap
    ensures aborted <==> old(RemoveAborts(src, dst, datlen))
    ensures !aborted ==>
      && Layout(src.heap.mem, src.first, src.last, src.Lwd(), src.data, src.spare) && src.Homed() && src.data.Cons?
      && dst.Linked() && Apart(dst, src) && dst.Settled()
      && dst.Bytes() == old(dst.Bytes() + src.Bytes()[..datlen]) && src.Bytes() == old(src.Bytes())[datlen..]
      && Swaps(old(dst.heap.mem), old(dst.Own() + src.Own()), dst.heap.mem, dst.Own() + src.Own())
      && dst.reports == old(dst.reports) +
           Report(dst.hasCallbacks, old(dst.settledLen), old(dst.nAddForCb) + datlen, old(dst.nDelForCb))
      && (Intact(dst.heap.mem, dst.first, dst.last, dst.Lwd()) <==> old(RemoveKeeps(src, dst, datlen)))
    ensures old(RemoveKeeps(src, dst, datlen)) ==> dst.Valid()
    ensures old(dst.Tight()) ==> dst.Tight()
  {
    hide AddAborts, AddKeeps, Spills;
    var chain, n, moved := MoveWhole(src, dst, datlen);
    Pieces(old(dst.Bytes()), old(src.Bytes()), moved, src.Bytes(), n, datlen);
    AddCases(dst.heap.mem, dst.last, dst.data, dst.spare, n);
    aborted := CopyPart(src, dst, chain, n);
  }

  lemma AddCases(mem: Memory, last: Ptr, data: Cells, spare: Cells, n: nat)
    ensures Compact(data, spare) ==> !AddAborts(mem, last, spare, n) && AddKeeps(mem, last, data, spare, n)
    ensures !(AddAborts(mem, last, spare, n) && AddKeeps(mem, last, data, spare, n))
  {
  }

  /** The case of evbuffer_remove_buffer that leaves something in src. */
  method RemovePart(src: EvBuffer, dst: EvBuffer, datlen: nat) returns (aborted: bool)
    requires src.Valid() && dst.Valid() && Apart(dst, src)
    requires src.Accounted() && dst.Accounted() && 0 < datlen < src.totalLen
    modifies src, dst, dst.heap
    ensures aborted <==> old(RemoveAborts(src, dst, datlen))
    ensures !aborted ==>
      && src.Valid() && dst.Linked() && Apart(dst, src) && (old(src.Tight()) ==> src.Tight())
      && dst.Settled() && src.Settled()
      && dst.Bytes() == old(dst.Bytes() + src.Bytes()[..datlen]) && src.Bytes() == old(src.Bytes())[datlen..]
      && Swaps(old(dst.heap.mem), old(dst.Own() + src.Own()), dst.heap.mem, dst.Own() + src.Own())
      && dst.reports == old(dst.reports) +
           Report(dst.hasCallbacks, old(dst.settledLen), old(dst.nAddForCb) + datlen, old(dst.nDelForCb))
      && src.reports == old(src.reports) +
           Report(src.hasCallbacks, old(src.settledLen), old(src.nAddForCb), old(src.nDelForCb) + datlen)
      && (Intact(dst.heap.mem, dst.first, dst.last, dst.Lwd()) <==> old(RemoveKeeps(src, dst, datlen)))
    ensures old(RemoveKeeps(src, dst, datlen)) ==> dst.Valid()
    ensures old(dst.Tight()) ==> dst.Tight()
  {
    hide AddAborts, AddKeeps, RemoveAborts, RemoveKeeps;
    aborted := MovePart(src, dst, datlen);
    if !aborted {
      NoteRemoved(src, dst, datlen);
    }
  }

  /** evbuffer_remove_buffer. It aborts, or leaves dst unsound, exactly in the
      cases that RemoveAborts and RemoveKeeps describe. */
  method RemoveBuffer(src: EvBuffer, dst: EvBuffer, datlen: nat) returns (result: nat, aborted: bool)
    requires src.Valid() && dst.Valid() && src.Accounted() && dst.Accounted()
    requires dst != src ==> Apart(dst, src)
    modifies src, dst, dst.heap
    ensures aborted <==> old(RemoveAborts(src, dst, datlen))
    ensures !aborted ==>
      && src.Valid() && dst.Linked() && src.Accounted() && dst.Accounted() && (dst != src ==> Apart(dst, src))
      && Swaps(old(dst.heap.mem), old(dst.Own() + src.Own()), dst.heap.mem, dst.Own() + src.Own())
      && result == (if dst == src then 0 else Min(datlen, old(src.totalLen)))
      && (if result == 0 then unchanged(dst) && unchanged(src) else
            && dst.Settled() && src.Settled()
            && dst.Bytes() == old(dst.Bytes()) + old(src.Bytes())[..result] && src.Bytes() == old(src.Bytes())[result..]
            && dst.reports == old(dst.reports) +
                 Report(dst.hasCallbacks, old(dst.settledLen), old(dst.nAddForCb) + result, old(dst.nDelForCb))
            && src.reports == old(src.reports) +
                 Report(src.hasCallbacks, old(src.settledLen), old(src.nAddForCb), old(src.nDelForCb) + result))
      && (Intact(dst.heap.mem, dst.first, dst.last, dst.Lwd()) <==> old(RemoveKeeps(src, dst, datlen)))
    ensures old(RemoveKeeps(src, dst, datlen)) ==> dst.Valid()
    ensures old(dst.Tight() && src.Tight()) ==> !aborted && src.Tight() && dst.Tight()
  {
    hide AddAborts, AddKeeps;
    aborted := false;
    if datlen == 0 || dst == src {
      FlatEmpty(dst.spare);
      return 0, false;
    }
    if datlen >= src.totalLen {
      result := src.totalLen;
      AddBuffer(dst, src);
    } else {
      result := datlen;
      AddCases(dst.heap.mem, dst.last, dst.data, dst.spare, datlen);
      aborted := RemovePart(src, dst, datlen);
    }
  }
}
