/** The operations that consume or extend one evbuffer's bytes. */
module EvQueue {
  import opened Segments
  import opened EvBuffers

  // ----- evbuffer_drain

  /** One round of the drain loop: the first chunk, wholly drained, is freed. */
  lemma DrainStep(mem: Memory, p: Ptr, last: Ptr, lwd: Link, data: Cells, spare: Cells, n: nat)
    requires Layout(mem, p, last, lwd, data, spare) && n < |Flat(data)|
    requires p in mem ==> mem[p].off <= n
    ensures data.Cons? && p in mem && p == data.p && |data.data| == mem[p].off
    ensures n - mem[p].off < |Flat(data.tail)|
    ensures Flat(data.tail)[n - mem[p].off..] == Flat(data)[n..]
    ensures Layout(mem - {p}, mem[p].next, last, if lwd == Next(p) then First else lwd, data.tail, spare)
    ensures Swaps(mem, Ptrs(Cat(data, spare)), mem - {p}, Ptrs(Cat(data.tail, spare)))
    ensures lwd.Next? && lwd.chain in mem && mem[lwd.chain].next != p
    ensures mem[p].next in mem - {p}
  {
    SegPop(mem, p, Cat(data, spare), Null);
    Ends(mem, p, last, lwd, data, spare);
    LastIn(data.tail);
    LwdTarget(mem, mem[p].next, data.tail, Head(spare, Null));
  }

  /** The drain loop: frees the chunks that len covers wholly. */
  method DrainWhole(buf: EvBuffer, len: nat)
    returns (chain: Ptr, remaining: nat, ghost rest: Cells)
    requires Layout(buf.heap.mem, buf.first, buf.last, buf.Lwd(), buf.data, buf.spare)
    requires buf.Homed() && len < |buf.Bytes()|
    modifies buf`lastWithDatap, buf.heap
    ensures Layout(buf.heap.mem, chain, buf.last, buf.Lwd(), rest, buf.spare)
    ensures buf.Homed() && rest.Cons? && remaining < |rest.data|
    ensures remaining < |Flat(rest)| && Flat(rest)[remaining..] == buf.Bytes()[len..]
    ensures Swaps(old(buf.heap.mem), buf.Own(), buf.heap.mem, Ptrs(Cat(rest, buf.spare)))
  {
    var heap := buf.heap;
    remaining, chain, rest := len, buf.first, buf.data;
    while remaining >= heap.mem[chain].off
      modifies buf`lastWithDatap, heap
      invariant Layout(heap.mem, chain, buf.last, buf.Lwd(), rest, buf.spare)
      invariant buf.Homed() && chain in heap.mem
      invariant remaining < |Flat(rest)| && Flat(rest)[remaining..] == buf.Bytes()[len..]
      invariant Swaps(old(buf.heap.mem), buf.Own(), heap.mem, Ptrs(Cat(rest, buf.spare)))
      decreases rest
    {
      DrainStep(heap.mem, chain, buf.last, buf.Lwd(), rest, buf.spare, remaining);
      var c := heap.mem[chain];
      remaining := remaining - c.off;
      // Never equal here: less than everything is drained.
      buf.lastWithDatap := if chain == buf.Deref(buf.lastWithDatap) then FirstOf(buf) else buf.lastWithDatap;
      if NextOf(chain) == buf.lastWithDatap {
        buf.lastWithDatap := FirstOf(buf);
      }
      heap.mem := heap.mem - {chain};
      chain := c.next;
      rest := rest.tail;
    }
  }

  lemma CutReads(ch: Chain, d: seq<byte>, n: nat)
    requires Reads(ch, d) && n <= |d|
    ensures n <= ch.off && |d| == ch.off
    ensures Reads(ch.(misalign := ch.misalign + n, off := ch.off - n), d[n..])
  {
  }

  /** A new view of the first chunk. */
  lemma NewHead(data: Cells, spare: Cells, d: seq<byte>)
    requires data.Cons? && d != [] && AllData(data)
    ensures var data' := Cons(data.p, d, data.tail);
      && LwdOf(data') == LwdOf(data) && AllData(data')
      && LastOf(Cat(data', spare)) == LastOf(Cat(data, spare))
      && Ptrs(Cat(data', spare)) == Ptrs(Cat(data, spare))
  {
  }

  /** Cutting n bytes off the window of the first chunk. */
  lemma CutFront(mem: Memory, p: Ptr, last: Ptr, lwd: Link, data: Cells, spare: Cells, n: nat)
    returns (data': Cells, mem': Memory)
    requires Layout(mem, p, last, lwd, data, spare) && data.Cons? && n < |data.data|
    ensures p in mem && p != Null && n < mem[p].off
    ensures mem' == mem[p := mem[p].(misalign := mem[p].misalign + n, off := mem[p].off - n)]
    ensures Layout(mem', p, last, lwd, data', spare) && data'.Cons?
    ensures Ptrs(Cat(data', spare)) == Ptrs(Cat(data, spare))
    ensures Swaps(mem, Ptrs(Cat(data, spare)), mem', Ptrs(Cat(data', spare)))
    ensures n < |Flat(data)| && Flat(data') == Flat(data)[n..]
  {
    CutReads(mem[p], data.data, n);
    DropConcat(data.data, Flat(data.tail), n);
    var ch := mem[p].(misalign := mem[p].misalign + n, off := mem[p].off - n);
    NewHead(data, spare, data.data[n..]);
    SegWriteHead(mem, p, Cat(data, spare), Null, ch, data.data[n..]);
    data', mem' := Cons(p, data.data[n..], data.tail), mem[p := ch];
  }

  method ZeroChain(buf: EvBuffer)
    modifies buf`first, buf`last, buf`lastWithDatap, buf`totalLen, buf`data, buf`spare
    ensures buf.Valid() && buf.Tight() && buf.data == buf.spare == Nil
  {
    buf.first, buf.last, buf.lastWithDatap, buf.totalLen := Null, Null, FirstOf(buf), 0;
    buf.data, buf.spare := Nil, Nil;
  }

  method DrainChunks(buf: EvBuffer, len: nat)
    requires buf.Valid() && len < buf.totalLen
    modifies buf`first, buf`lastWithDatap, buf`totalLen, buf`data, buf.heap
    ensures buf.Valid() && (old(buf.Tight()) ==> buf.Tight()) && buf.totalLen == old(buf.totalLen) - len
    ensures buf.Bytes() == old(buf.Bytes())[len..]
    ensures Swaps(old(buf.heap.mem), old(buf.Own()), buf.heap.mem, buf.Own())
  {
    var heap := buf.heap;
    buf.totalLen := buf.totalLen - len;
    var chain, remaining, rest := DrainWhole(buf, len);
    ghost var data', mem' := CutFront(heap.mem, chain, buf.last, buf.Lwd(), rest, buf.spare, remaining);
    var c := heap.mem[chain];
    buf.first := chain;
    if chain != Null {
      heap.mem := heap.mem[chain := c.(misalign := c.misalign + remaining, off := c.off - remaining)];
    }
    assert heap.mem == mem';
    buf.data := data';
  }

  /** The case of evbuffer_drain that leaves nothing. */
  method DrainAll(buf: EvBuffer)
    requires buf.Valid()
    modifies buf`first, buf`last, buf`lastWithDatap, buf`totalLen, buf`data, buf`spare, buf.heap
    ensures buf.Valid() && buf.Tight() && buf.data == Nil && buf.totalLen == 0
    ensures Swaps(old(buf.heap.mem), old(buf.Own()), buf.heap.mem, buf.Own())
  {
    FreeAllChains(buf.heap, buf.first, Cat(buf.data, buf.spare));
    ZeroChain(buf);
    assert buf.heap.mem - {} == buf.heap.mem;
  }

  /** evbuffer_drain */
  method Drain(buf: EvBuffer, len: nat)
    requires buf.Valid() && buf.Accounted()
    modifies buf, buf.heap
    ensures buf.Valid() && buf.Accounted() && (old(buf.Tight()) ==> buf.Tight())
    ensures buf.Bytes() == old(buf.Bytes())[Min(len, old(buf.totalLen))..]
    ensures Swaps(old(buf.heap.mem), old(buf.Own()), buf.heap.mem, buf.Own())
    ensures if old(buf.totalLen) == 0 then unchanged(buf) else
      buf.Settled() && buf.reports == old(buf.reports) +
        Report(buf.hasCallbacks, old(buf.settledLen), old(buf.nAddForCb),
               old(buf.nDelForCb) + Min(len, old(buf.totalLen)))
  {
    var oldLen := buf.totalLen;
    if oldLen == 0 {
      return;
    }
    var n := Min(len, oldLen);
    if len >= oldLen {
      DrainAll(buf);
    } else {
      DrainChunks(buf, len);
    }
    buf.nDelForCb := buf.nDelForCb + n;
    InvokeCallbacks(buf);
  }

  // ----- evbuffer_copyout and evbuffer_remove

  lemma TakeReads(ch: Chain, d: seq<byte>, n: nat)
    requires Reads(ch, d) && n <= |d|
    ensures ch.buffer[ch.misalign..ch.misalign + n] == d[..n]
  {
  }

  /** The chunk the copyout loop is at: n more bytes take it wholly or a part. */
  lemma CopyStep(mem: Memory, p: Ptr, rest: Cells, spare: Cells, n: nat)
    requires Seg(mem, p, Cat(rest, spare), Null) && 0 < n <= |Flat(rest)|
    ensures rest.Cons? && p in mem && Reads(mem[p], rest.data)
    ensures mem[p].off > n ==> Flat(rest)[..n] == rest.data[..n]
    ensures mem[p].off <= n ==>
      && Seg(mem, mem[p].next, Cat(rest.tail, spare), Null)
      && 0 <= n - mem[p].off <= |Flat(rest.tail)|
      && Flat(rest)[..n] == rest.data + Flat(rest.tail)[..n - mem[p].off]
  {
    TakeConcat(rest.data, Flat(rest.tail), n);
  }

  /** evbuffer_copyout */
  method Copyout(buf: EvBuffer, datlen: nat) returns (out: seq<byte>)
    requires buf.Valid()
    ensures out == buf.Bytes()[..Min(datlen, buf.totalLen)]
  {
    var mem, chain := buf.heap.mem, buf.first;
    var n := Min(datlen, buf.totalLen);
    out := [];
    ghost var rest, goal := buf.data, buf.Bytes()[..n];
    while n != 0 && n >= mem[chain].off
      invariant 0 <= n <= |Flat(rest)|
      invariant n != 0 ==> Seg(mem, chain, Cat(rest, buf.spare), Null) && chain in mem
      invariant out + Flat(rest)[..n] == goal
      decreases rest
    {
      var c := mem[chain];
      CopyStep(mem, chain, rest, buf.spare, n);
      Assoc(out, rest.data, Flat(rest.tail)[..n - c.off]);
      out := out + c.buffer[c.misalign..c.misalign + c.off];
      n, chain, rest := n - c.off, c.next, rest.tail;
      if n != 0 {
        CopyStep(mem, chain, rest, buf.spare, n);
      }
    }
    if n != 0 {
      var c := mem[chain];
      CopyStep(mem, chain, rest, buf.spare, n);
      TakeReads(c, rest.data, n);
      out := out + c.buffer[c.misalign..c.misalign + n];
    }
  }

  /** evbuffer_remove */
  method Remove(buf: EvBuffer, datlen: nat) returns (out: seq<byte>)
    requires buf.Valid() && buf.Accounted()
    modifies buf, buf.heap
    ensures buf.Valid() && buf.Accounted() && (old(buf.Tight()) ==> buf.Tight())
    ensures old(buf.Bytes()) == out + buf.Bytes() && |out| == Min(datlen, old(buf.totalLen))
    ensures Swaps(old(buf.heap.mem), old(buf.Own()), buf.heap.mem, buf.Own())
    ensures if |out| == 0 then unchanged(buf) else
      buf.Settled() && buf.reports == old(buf.reports) +
        Report(buf.hasCallbacks, old(buf.settledLen), old(buf.nAddForCb), old(buf.nDelForCb) + |out|)
  {
    out := Copyout(buf, datlen);
    if |out| > 0 {
      Drain(buf, |out|);
    }
  }

  // ----- evbuffer_add

  const EVBUFFER_CHAIN_MAX_AUTO_SIZE := 4096
  const MAX_TO_REALIGN_IN_EXPAND := 2048

  /** evbuffer_chain_should_realign */
  predicate ShouldRealign(ch: Chain, datlen: nat) {
    && |ch.buffer| - ch.off >= datlen
    && ch.off < |ch.buffer| / 2
    && ch.off <= MAX_TO_REALIGN_IN_EXPAND
  }

  /** evbuffer_chain_align */
  function Aligned(ch: Chain): Chain
    requires ch.misalign + ch.off <= |ch.buffer|
  {
    ch.(misalign := 0, buffer := Copied(ch.buffer, 0, ch.buffer[ch.misalign..ch.misalign + ch.off]))
  }

  /** Bytes written behind the window. */
  function Extended(ch: Chain, bs: seq<byte>): Chain
    requires ch.misalign + ch.off + |bs| <= |ch.buffer|
  {
    ch.(off := ch.off + |bs|, buffer := Copied(ch.buffer, ch.misalign + ch.off, bs))
  }

  lemma AlignedReads(ch: Chain, d: seq<byte>)
    requires Reads(ch, d)
    ensures Reads(Aligned(ch), d) && |Aligned(ch).buffer| == |ch.buffer|
  {
  }

  lemma ExtendedReads(ch: Chain, d: seq<byte>, bs: seq<byte>)
    requires Reads(ch, d) && ch.misalign + ch.off + |bs| <= |ch.buffer|
    ensures Reads(Extended(ch, bs), d + bs)
  {
    var r := Extended(ch, bs).buffer;
    var m, n := ch.misalign, ch.misalign + ch.off;
    assert r[m..n + |bs|] == r[..n][m..] + r[n..n + |bs|];
    assert ch.buffer[..n][m..] == ch.buffer[m..n];
  }

  lemma {:induction false} LwdFront(front: Cells, p: Ptr, d: seq<byte>, d': seq<byte>)
    ensures LwdOf(Cat(front, Cons(p, d, Nil))) == LwdOf(Cat(front, Cons(p, d', Nil)))
  {
    if front.Cons? {
      LwdFront(front.tail, p, d, d');
    }
  }

  /** The last chunk of a compact list. */
  lemma LastCell(mem: Memory, p: Ptr, last: Ptr, lwd: Link, data: Cells, spare: Cells)
    returns (front: Cells, d: seq<byte>)
    requires Layout(mem, p, last, lwd, data, spare) && Compact(data, spare) && (data.Cons? || spare.Cons?)
    ensures last != Null && last in mem && last in Ptrs(Cat(data, spare)) && Reads(mem[last], d)
    ensures Cat(data, spare) == Cat(front, Cons(last, d, Nil)) && NoDup(Cat(front, Cons(last, d, Nil)))
    ensures Seg(mem, p, Cat(front, Cons(last, d, Nil)), Null) && mem[last].next == Null
    ensures if d == [] then front.Nil? && data.Nil? && spare == Cons(last, [], Nil) else spare.Nil?
    ensures AllData(front) && Flat(data) == Flat(front) + d && lwd == LwdOf(Cat(front, Cons(last, d, Nil)))
  {
    front, d := SplitLast(Cat(data, spare));
    CatNil(data);
    var c := Cons(last, d, Nil);
    SegCat(mem, p, front, c, Null);
    CatParts(front, c);
    FlatEmpty(spare);
    CatParts(data, spare);
  }

  /** New contents for the last chunk, which then reads bs more. */
  lemma GrowLast(mem: Memory, p: Ptr, last: Ptr, lwd: Link, data: Cells, spare: Cells, ch: Chain, bs: seq<byte>)
    returns (data': Cells, spare': Cells)
    requires Layout(mem, p, last, lwd, data, spare) && Compact(data, spare) && (data.Cons? || spare.Cons?)
    requires last in mem ==> ch.next == mem[last].next
    requires forall d :: last in mem && Reads(mem[last], d) ==> Reads(ch, d + bs)
    ensures Layout(mem[last := ch], p, last, lwd, data', spare')
    ensures Compact(data', spare') && (bs != [] ==> spare'.Nil?)
    ensures Flat(data') == Flat(data) + bs
    ensures Swaps(mem, Ptrs(Cat(data, spare)), mem[last := ch], Ptrs(Cat(data', spare')))
    ensures Ptrs(Cat(data', spare')) == Ptrs(Cat(data, spare))
  {
    var front, d := LastCell(mem, p, last, lwd, data, spare);
    var c, c' := Cons(last, d, Nil), Cons(last, d + bs, Nil);
    SegWrite(mem, p, front, c, Null, ch, d + bs, Nil);
    CatParts(front, c);
    CatParts(front, c');
    LwdFront(front, last, d, d + bs);
    Assoc(Flat(front), d, bs);
    SwapsOne(mem, Ptrs(Cat(data, spare)), last, ch);
    if d + bs == [] {
      data', spare' := data, spare;
    } else {
      data', spare' := Cat(front, c'), Nil;
      CatNil(data');
    }
  }

  /** The list once bs was written into its last chunk, which was empty. */
  ghost function Written(cs: Cells, bs: seq<byte>): Cells {
    if cs.Nil? then Nil
    else if cs.tail.Nil? then Cons(cs.p, bs, Nil)
    else Cons(cs.p, cs.data, Written(cs.tail, bs))
  }

  lemma {:induction false} WrittenCells(cs: Cells, bs: seq<byte>)
    requires AllEmpty(cs) && cs.Cons?
    ensures Ptrs(Written(cs, bs)) == Ptrs(cs) && LastOf(Written(cs, bs)) == LastOf(cs)
    ensures (NoDup(cs) ==> NoDup(Written(cs, bs))) && Flat(Written(cs, bs)) == bs && Written(cs, bs).p == cs.p
    ensures Written(cs, bs).tail.Nil? <==> cs.tail.Nil?
    ensures AllEmpty(Written(cs, bs)) <==> bs == []
    ensures bs == [] ==> Written(cs, bs) == cs
    ensures cs.tail.Cons? ==> Written(cs, bs).data == [] && (AllEmpty(Written(cs, bs).tail) <==> bs == [])
  {
    if cs.tail.Cons? {
      WrittenCells(cs.tail, bs);
    } else {
      assert bs + [] == bs;
    }
  }

  lemma {:induction false} SegWritten(mem: Memory, p: Ptr, cs: Cells, ch: Chain, bs: seq<byte>)
    requires Seg(mem, p, cs, Null) && NoDup(cs) && cs.Cons? && AllEmpty(cs)
    requires Reads(ch, bs) && ch.next == Null
    ensures LastOf(cs) in mem && LastOf(cs) in Ptrs(cs) && Reads(mem[LastOf(cs)], []) && mem[LastOf(cs)].next == Null
    ensures Seg(mem[LastOf(cs) := ch], p, Written(cs, bs), Null)
    decreases cs
  {
    if cs.tail.Cons? {
      SegWritten(mem, mem[p].next, cs.tail, ch, bs);
    }
  }

  /** New contents for the last chunk of a list that ends with empty chunks. */
  lemma GrowSpare(mem: Memory, p: Ptr, last: Ptr, lwd: Link, data: Cells, spare: Cells, ch: Chain, bs: seq<byte>)
    requires Layout(mem, p, last, lwd, data, spare) && spare.Cons?
    requires last in mem && ch.next == mem[last].next && (Reads(mem[last], []) ==> Reads(ch, bs))
    ensures Listed(mem[last := ch], p, last, lwd, data, Written(spare, bs)) && Flat(Written(spare, bs)) == bs
    ensures Swaps(mem, Ptrs(Cat(data, spare)), mem[last := ch], Ptrs(Cat(data, Written(spare, bs))))
    ensures Ptrs(Cat(data, Written(spare, bs))) == Ptrs(Cat(data, spare))
  {
    var w := Written(spare, bs);
    CatParts(data, spare);
    CatParts(data, w);
    SegCat(mem, p, data, spare, Null);
    LastMem(mem, spare.p, spare);
    SegWritten(mem, spare.p, spare, ch, bs);
    WrittenCells(spare, bs);
    SegFrame(mem, mem[last := ch], p, data, spare.p);
    SegCat(mem[last := ch], p, data, w, Null);
    SwapsOne(mem, Ptrs(Cat(data, spare)), last, ch);
  }

  lemma {:induction false} LastMem(mem: Memory, p: Ptr, cs: Cells)
    requires Seg(mem, p, cs, Null) && cs.Cons? && AllEmpty(cs)
    ensures LastOf(cs) in Ptrs(cs) && LastOf(cs) in mem
    ensures Reads(mem[LastOf(cs)], []) && mem[LastOf(cs)].next == Null && LastOf(cs) != Null
    decreases cs
  {
    if cs.tail.Cons? {
      LastMem(mem, mem[p].next, cs.tail);
    }
  }

  /** What evbuffer_add sees of the last chunk. */
  lemma LastChunk(mem: Memory, p: Ptr, last: Ptr, lwd: Link, data: Cells, spare: Cells)
    requires Layout(mem, p, last, lwd, data, spare) && (data.Cons? || spare.Cons?)
    ensures last != Null && last in mem && last in Ptrs(Cat(data, spare)) && mem[last].next == Null
    ensures mem[last].misalign + mem[last].off <= |mem[last].buffer| && 0 < |mem[last].buffer|
    ensures spare.Cons? ==> mem[last].off == 0
  {
    if Compact(data, spare) {
      var _, _ := LastCell(mem, p, last, lwd, data, spare);
    } else {
      CatParts(data, spare);
      SegCat(mem, p, data, spare, Null);
      LastMem(mem, spare.p, spare);
    }
  }

  /** memcpy to the end of the last chunk. */
  method AppendToLast(buf: EvBuffer, bs: seq<byte>)
    requires buf.Valid() && buf.HasChunk()
    requires buf.last in buf.heap.mem ==> |bs| <= buf.heap.mem[buf.last].SpaceLen()
    modifies buf`totalLen, buf`nAddForCb, buf`data, buf`spare, buf.heap
    ensures buf.Behind() && buf.nAddForCb == old(buf.nAddForCb) + |bs| && buf.totalLen == old(buf.totalLen) + |bs|
    ensures Flat(buf.data) + Flat(buf.spare) == old(buf.Bytes()) + bs
    ensures old(buf.Tight()) ==> buf.Valid() && buf.Tight() && (bs != [] ==> buf.spare.Nil?)
    ensures !old(buf.Tight()) ==> buf.data == old(buf.data) && buf.spare == Written(old(buf.spare), bs)
    ensures Swaps(old(buf.heap.mem), old(buf.Own()), buf.heap.mem, buf.Own())
    ensures buf.Own() == old(buf.Own())
  {
    LastChunk(buf.heap.mem, buf.first, buf.last, buf.Lwd(), buf.data, buf.spare);
    var heap, c := buf.heap, buf.heap.mem[buf.last];
    ReadsExtended(c, bs);
    PutLast(buf, Extended(c, bs), bs);
    buf.totalLen, buf.nAddForCb := buf.totalLen + |bs|, buf.nAddForCb + |bs|;
  }

  lemma ReadsExtended(c: Chain, bs: seq<byte>)
    requires c.misalign + c.off + |bs| <= |c.buffer|
    ensures forall d :: Reads(c, d) ==> Reads(Extended(c, bs), d + bs)
  {
    forall d | Reads(c, d)
      ensures Reads(Extended(c, bs), d + bs)
    {
      ExtendedReads(c, d, bs);
    }
  }

  lemma ReadsAligned(c: Chain)
    requires c.misalign + c.off <= |c.buffer|
    ensures forall d :: Reads(c, d) ==> Reads(Aligned(c), d + [])
  {
    forall d | Reads(c, d)
      ensures Reads(Aligned(c), d + [])
    {
      AlignedReads(c, d);
      assert d + [] == d;
    }
  }

  /** The last chunk is rewritten; it reads bs more. */
  method PutLast(buf: EvBuffer, ch: Chain, ghost bs: seq<byte>)
    requires buf.Valid() && buf.HasChunk() && buf.last in buf.heap.mem
    requires ch.next == buf.heap.mem[buf.last].next
    requires forall d :: Reads(buf.heap.mem[buf.last], d) ==> Reads(ch, d + bs)
    modifies buf`data, buf`spare, buf.heap
    ensures Listed(buf.heap.mem, buf.first, buf.last, buf.Lwd(), buf.data, buf.spare)
    ensures buf.heap.mem == old(buf.heap.mem)[buf.last := ch]
    ensures Flat(buf.data) + Flat(buf.spare) == old(buf.Bytes()) + bs
    ensures old(buf.Tight()) ==> AllEmpty(buf.spare) && buf.Tight() && (bs != [] ==> buf.spare.Nil?)
    ensures !old(buf.Tight()) ==> buf.data == old(buf.data) && buf.spare == Written(old(buf.spare), bs)
    ensures Swaps(old(buf.heap.mem), old(buf.Own()), buf.heap.mem, buf.Own())
    ensures buf.Own() == old(buf.Own())
  {
    ghost var mem, mem' := buf.heap.mem, buf.heap.mem[buf.last := ch];
    ghost var data', spare';
    if buf.Tight() {
      data', spare' := GrowLast(mem, buf.first, buf.last, buf.Lwd(), buf.data, buf.spare, ch, bs);
      FlatEmpty(spare');
      assert Flat(data') + [] == Flat(data');
    } else {
      assert [] + bs == bs;
      GrowSpare(mem, buf.first, buf.last, buf.Lwd(), buf.data, buf.spare, ch, bs);
      data', spare' := buf.data, Written(buf.spare, bs);
    }
    buf.heap.mem := buf.heap.mem[buf.last := ch];
    buf.data, buf.spare := data', spare';
  }

  /** evbuffer_chain_align on the last chunk. */
  method AlignLast(buf: EvBuffer)
    requires buf.Valid() && buf.HasChunk()
    modifies buf`data, buf`spare, buf.heap
    ensures buf.Valid() && buf.HasChunk() && buf.Bytes() == old(buf.Bytes()) && (buf.Tight() <==> old(buf.Tight()))
    ensures !old(buf.Tight()) ==> buf.data == old(buf.data) && buf.spare == old(buf.spare)
    ensures buf.last in buf.heap.mem && buf.last in old(buf.heap.mem)
    ensures old(buf.heap.mem[buf.last]).misalign + old(buf.heap.mem[buf.last]).off <= |old(buf.heap.mem[buf.last]).buffer|
    ensures buf.heap.mem[buf.last] == Aligned(old(buf.heap.mem[buf.last]))
    ensures Swaps(old(buf.heap.mem), old(buf.Own()), buf.heap.mem, buf.Own())
    ensures buf.Own() == old(buf.Own())
  {
    LastChunk(buf.heap.mem, buf.first, buf.last, buf.Lwd(), buf.data, buf.spare);
    var c := buf.heap.mem[buf.last];
    ReadsAligned(c);
    if !buf.Tight() {
      WrittenCells(buf.spare, []);
    }
    PutLast(buf, Aligned(c), []);
    FlatEmpty(buf.spare);
    assert Flat(buf.data) + [] == Flat(buf.data) && old(buf.Bytes()) + [] == old(buf.Bytes());
  }

  /** A new chunk with `data` at its start. */
  method ChainNewWith(heap: Heap, size: nat, data: seq<byte>) returns (p: Ptr)
    requires |data| <= size
    modifies heap
    ensures p != Null && p !in old(heap.mem) && p in heap.mem
    ensures heap.mem - {p} == old(heap.mem)
    ensures heap.mem[p].next == Null && Reads(heap.mem[p], data)
  {
    p := ChainNew(heap, size);
    ExtendedReads(heap.mem[p], [], data);
    assert [] + data == data;
    heap.mem := heap.mem[p := Extended(heap.mem[p], data)];
  }

  /** The case of evbuffer_add that needs another chunk: the last chunk takes
      what it can, a new one the rest. */
  method Spill(buf: EvBuffer, bs: seq<byte>) returns (tmp: Ptr, rest: seq<byte>)
    requires buf.Valid() && buf.HasChunk()
    requires buf.last in buf.heap.mem && 0 <= buf.heap.mem[buf.last].SpaceLen() < |bs|
    modifies buf`totalLen, buf`nAddForCb, buf`data, buf`spare, buf.heap
    ensures buf.Behind() && rest == bs[old(buf.heap.mem[buf.last].SpaceLen())..] && rest != []
    ensures Flat(buf.data) + Flat(buf.spare) + rest == old(buf.Bytes()) + bs
    ensures old(buf.Tight()) ==> buf.Valid() && (buf.data.Nil? || buf.spare.Nil?)
    ensures !old(buf.Tight()) ==>
      buf.data == old(buf.data) && buf.spare == Written(old(buf.spare), bs[..old(buf.heap.mem[buf.last].SpaceLen())])
    ensures buf.totalLen + |rest| == old(buf.totalLen) + |bs|
    ensures buf.nAddForCb + |rest| == old(buf.nAddForCb) + |bs|
    ensures tmp != Null && tmp in buf.heap.mem && tmp !in buf.Own()
    ensures buf.heap.mem[tmp].next == Null && Reads(buf.heap.mem[tmp], rest)
    ensures Swaps(old(buf.heap.mem), old(buf.Own()), buf.heap.mem, buf.Own() + {tmp})
  {
    var heap, c := buf.heap, buf.heap.mem[buf.last];
    var remain := c.SpaceLen();
    var toAlloc := |c.buffer|;
    if toAlloc <= EVBUFFER_CHAIN_MAX_AUTO_SIZE / 2 {
      toAlloc := toAlloc * 2;
    }
    if |bs| > toAlloc {
      toAlloc := |bs|;
    }
    rest := bs[remain..];
    tmp := ChainNewWith(heap, toAlloc, rest);
    LayoutFresh(old(heap.mem), heap.mem, tmp, buf.first, buf.last, buf.Lwd(), buf.data, buf.spare);
    ghost var mem1 := heap.mem;
    assert heap.mem[buf.last] == c;
    if remain != 0 {
      AppendToLast(buf, bs[..remain]);
      SwapsElsewhere(mem1, buf.Own(), heap.mem, tmp);
    } else {
      FlatEmpty(buf.spare);
      assert bs[..0] == [];
      if !buf.Tight() {
        WrittenCells(buf.spare, []);
      }
    }
    SwapsFresh(old(heap.mem), tmp, mem1, buf.Own(), heap.mem);
    Assoc(old(buf.Bytes()), bs[..remain], rest);
    assert bs == bs[..remain] + rest;
  }

  /** Room in front of the window; an empty chunk is all room. */
  function FrontRoom(ch: Chain): nat {
    if ch.off == 0 then |ch.buffer| else ch.misalign
  }

  /** Room for size bytes in front, before another chunk is needed. */
  ghost function PrependRoom(mem: Memory, first: Ptr, size: nat): nat {
    if first == Null then size else if first in mem then FrontRoom(mem[first]) else 0
  }

  /** evbuffer_add and evbuffer_prepend first make sure that there is a chunk. */
  method EnsureChain(buf: EvBuffer, size: nat)
    requires buf.Valid()
    modifies buf`first, buf`last, buf`lastWithDatap, buf`totalLen, buf`data, buf`spare, buf.heap
    ensures buf.Valid() && (old(buf.Tight()) ==> buf.Tight()) && buf.totalLen == old(buf.totalLen)
    ensures buf.Bytes() == old(buf.Bytes()) && buf.data == old(buf.data)
    ensures Swaps(old(buf.heap.mem), old(buf.Own()), buf.heap.mem, buf.Own())
    ensures buf.HasChunk()
    ensures old(buf.first) != Null ==>
      buf.heap.mem == old(buf.heap.mem) && buf.first == old(buf.first) && buf.last == old(buf.last) && buf.spare == old(buf.spare)
    ensures old(buf.first) == Null ==> old(Compact(buf.data, buf.spare)) && old(buf.spare) == Nil && buf.Tight()
    ensures buf.first in buf.heap.mem &&
      Min(size, FrontRoom(buf.heap.mem[buf.first])) == Min(size, old(PrependRoom(buf.heap.mem, buf.first, size)))
  {
    Ends(buf.heap.mem, buf.first, buf.last, buf.Lwd(), buf.data, buf.spare);
    if buf.first == Null {
      var chain := ChainNew(buf.heap, size);
      LayoutFresh(old(buf.heap.mem), buf.heap.mem, chain, buf.first, buf.last, buf.Lwd(), buf.data, buf.spare);
      ghost var own, mem1 := buf.Own(), buf.heap.mem;
      assert mem1 - (own + {chain}) == old(buf.heap.mem) - own by {
        assert mem1 - (own + {chain}) == (mem1 - {chain}) - own;
      }
      InsertedValid(buf.data, buf.spare, chain, []);
      var _ := ChainInsert(buf, chain, []);
    }
  }

  // ----- what evbuffer_add does to a buffer with spare empty chunks

  /** The bytes do not fit into the chunk, aligned or not. */
  ghost predicate Spills(c: Chain, n: nat) {
    c.SpaceLen() < n && !ShouldRealign(c, n)
  }

  /** evbuffer_chain_insert finds data behind the first empty chunk. */
  ghost predicate AddAborts(mem: Memory, last: Ptr, spare: Cells, n: nat) {
    && spare.Cons? && spare.tail.Cons?
    && last in mem && 0 < mem[last].SpaceLen() && Spills(mem[last], n)
  }

  /** The link to the last chunk with data is where it should be afterwards. */
  ghost predicate AddKeeps(mem: Memory, last: Ptr, data: Cells, spare: Cells, n: nat) {
    || n == 0
    || Compact(data, spare)
    || (last in mem && Spills(mem[last], n) && if mem[last].SpaceLen() == 0 then data.Nil? else spare.tail.Nil?)
  }

  lemma VictimsWritten(spare: Cells, w: seq<byte>)
    requires AllEmpty(spare) && spare.Cons? && w != []
    ensures var s := Written(spare, w);
      && (spare.tail.Nil? ==> Full(s) == s && Victims(s) == Nil && s.tail.Nil? && s.Cons?)
      && (spare.tail.Cons? ==> Full(s) == Nil && Victims(s) == s && !AllEmpty(s))
  {
    WrittenCells(spare, w);
  }

  /** The new chunk linked in, for each kind of list. */
  lemma Linking(data: Cells, spare: Cells, w: seq<byte>, tmp: Ptr, rest: seq<byte>)
    requires AllEmpty(spare) && !Compact(data, spare) && rest != []
    ensures var s := Written(spare, w);
      var (data', spare') := Inserted(data, s, tmp, rest);
      && (AllEmpty(Victims(s)) <==> w == [] || spare.tail.Nil?)
      && (AllEmpty(Victims(s)) ==>
            (Known(data', spare') <==>
             if w == [] then data.Nil? else spare.tail.Nil?))
  {
    WrittenCells(spare, w);
    FullVictims(spare);
    if w != [] {
      VictimsWritten(spare, w);
    }
  }

  method AddChunk(buf: EvBuffer, bs: seq<byte>) returns (aborted: bool)
    requires buf.Valid() && buf.HasChunk()
    requires buf.last in buf.heap.mem && 0 <= buf.heap.mem[buf.last].SpaceLen()
    requires Spills(buf.heap.mem[buf.last], |bs|)
    modifies buf`first, buf`last, buf`lastWithDatap, buf`totalLen, buf`nAddForCb, buf`data, buf`spare, buf.heap
    ensures aborted <==> old(AddAborts(buf.heap.mem, buf.last, buf.spare, |bs|))
    ensures !aborted ==>
      && buf.Behind() && Flat(buf.data) + Flat(buf.spare) == old(buf.Bytes()) + bs
      && buf.totalLen == old(buf.totalLen) + |bs| && buf.nAddForCb == old(buf.nAddForCb) + |bs|
      && Swaps(old(buf.heap.mem), old(buf.Own()), buf.heap.mem, buf.Own())
      && (Known(buf.data, buf.spare) <==>
          old(AddKeeps(buf.heap.mem, buf.last, buf.data, buf.spare, |bs|)))
    ensures old(buf.Tight()) ==> AllEmpty(buf.spare) && buf.Tight()
  {
    ghost var remain: int := buf.heap.mem[buf.last].SpaceLen();
    var tmp, rest := Spill(buf, bs);
    if old(buf.Tight()) {
      InsertedValid(buf.data, buf.spare, tmp, rest);
    } else {
      Linking(old(buf.data), old(buf.spare), bs[..remain], tmp, rest);
    }
    ghost var mem1, own := buf.heap.mem, buf.Own();
    var ok := ChainInsert(buf, tmp, rest);
    if ok {
      buf.nAddForCb := buf.nAddForCb + |rest|;
    }
    aborted := !ok;
  }

  /** The lists of a buffer in the order that Layout asks for, if the link allows
      it. */
  lemma Sorted(mem: Memory, first: Ptr, last: Ptr, lwd: Link, data: Cells, rest: Cells) returns (data': Cells, spare': Cells)
    requires Listed(mem, first, last, lwd, data, rest)
    ensures Intact(mem, first, last, lwd) <==> Known(data, rest)
    ensures Intact(mem, first, last, lwd) ==> Layout(mem, first, last, lwd, data', spare')
    ensures Cat(data', spare') == Cat(data, rest) && AllEmpty(spare') && Flat(data') == Flat(data) + Flat(rest)
    ensures AllEmpty(rest) ==> data' == data && spare' == rest
  {
    IntactIff(mem, first, last, lwd, data, rest);
    if AllEmpty(rest) {
      FlatEmpty(rest);
      data', spare' := data, rest;
    } else if data.Nil? && rest.data != [] && AllEmpty(rest.tail) {
      FlatEmpty(rest.tail);
      data', spare' := Cons(rest.p, rest.data, Nil), rest.tail;
      assert Cat(Nil, rest.tail) == rest.tail;
    } else {
      CatParts(data, rest);
      CatNil(Cat(data, rest));
      data', spare' := Cat(data, rest), Nil;
    }
  }

  method AddBytes(buf: EvBuffer, bs: seq<byte>) returns (aborted: bool)
    requires buf.Valid() && buf.HasChunk()
    modifies buf`first, buf`last, buf`lastWithDatap, buf`totalLen, buf`nAddForCb, buf`data, buf`spare, buf.heap
    ensures aborted <==> old(AddAborts(buf.heap.mem, buf.last, buf.spare, |bs|))
    ensures !aborted ==>
      && buf.Behind() && Flat(buf.data) + Flat(buf.spare) == old(buf.Bytes()) + bs
      && buf.totalLen == old(buf.totalLen) + |bs| && buf.nAddForCb == old(buf.nAddForCb) + |bs|
      && Swaps(old(buf.heap.mem), old(buf.Own()), buf.heap.mem, buf.Own())
      && (Known(buf.data, buf.spare) <==>
          old(AddKeeps(buf.heap.mem, buf.last, buf.data, buf.spare, |bs|)))
    ensures old(buf.Tight()) ==> AllEmpty(buf.spare) && buf.Tight()
  {
    LastChunk(buf.heap.mem, buf.first, buf.last, buf.Lwd(), buf.data, buf.spare);
    var c := buf.heap.mem[buf.last];
    aborted := false;
    if !buf.Tight() {
      WrittenCells(buf.spare, bs);
    }
    if c.SpaceLen() >= |bs| {
      AppendToLast(buf, bs);
    } else if ShouldRealign(c, |bs|) {
      AlignLast(buf);
      AppendToLast(buf, bs);
    } else {
      aborted := AddChunk(buf, bs);
    }
  }

  /** evbuffer_add. It aborts in the one case that AddAborts describes. Otherwise
      the bytes are there, and the buffer is sound exactly in the cases that
      AddKeeps describes. */
  method Add(buf: EvBuffer, bs: seq<byte>) returns (aborted: bool)
    requires buf.Valid() && buf.Accounted()
    modifies buf, buf.heap
    ensures aborted <==> old(AddAborts(buf.heap.mem, buf.last, buf.spare, |bs|))
    ensures !aborted ==>
      && buf.Linked() && buf.Accounted() && buf.Bytes() == old(buf.Bytes()) + bs
      && Swaps(old(buf.heap.mem), old(buf.Own()), buf.heap.mem, buf.Own())
      && buf.Settled() && buf.reports == old(buf.reports) +
           Report(buf.hasCallbacks, old(buf.settledLen), old(buf.nAddForCb) + |bs|, old(buf.nDelForCb))
      && (Intact(buf.heap.mem, buf.first, buf.last, buf.Lwd()) <==>
          old(AddKeeps(buf.heap.mem, buf.last, buf.data, buf.spare, |bs|)))
    ensures old(AddKeeps(buf.heap.mem, buf.last, buf.data, buf.spare, |bs|)) ==> buf.Valid()
    ensures old(buf.Tight()) ==> buf.Tight()
  {
    hide Seg, NoDup, AllData, LwdOf, LastOf, Flat, Ptrs, Known, ShouldRealign;
    EnsureChain(buf, |bs|);
    aborted := AddBytes(buf, bs);
    if aborted {
      return;
    }
    ghost var data', spare' := Sorted(buf.heap.mem, buf.first, buf.last, buf.Lwd(), buf.data, buf.spare);
    buf.data, buf.spare := data', spare';
    InvokeCallbacks(buf);
  }

  // ----- evbuffer_prepend

  /** Bytes written in front of the window. */
  function Prefixed(ch: Chain, bs: seq<byte>): Chain
    requires |bs| <= FrontRoom(ch) <= |ch.buffer|
  {
    var at := FrontRoom(ch) - |bs|;
    ch.(misalign := at, off := ch.off + |bs|, buffer := Copied(ch.buffer, at, bs))
  }

  lemma PrefixedReads(ch: Chain, d: seq<byte>, bs: seq<byte>)
    requires Reads(ch, d) && |bs| <= FrontRoom(ch)
    ensures Reads(Prefixed(ch, bs), bs + d)
  {
    var r := Prefixed(ch, bs).buffer;
    var m, n := FrontRoom(ch) - |bs|, FrontRoom(ch);
    assert r[m..n + ch.off] == r[m..n] + r[n..][..ch.off];
    assert ch.buffer[n..][..ch.off] == ch.buffer[n..n + ch.off];
    assert ch.off == 0 ==> d == [] && ch.buffer[n..n + ch.off] == d;
  }

  /** New contents for the first chunk, which then reads bs in front. */
  lemma GrowFirst(mem: Memory, p: Ptr, last: Ptr, lwd: Link, data: Cells, spare: Cells, bs: seq<byte>)
    returns (data': Cells, spare': Cells)
    requires Layout(mem, p, last, lwd, data, spare) && (data.Cons? || spare.Cons?)
    requires p in mem ==> |bs| <= FrontRoom(mem[p])
    ensures p in mem && p != Null && FrontRoom(mem[p]) <= |mem[p].buffer|
    ensures Layout(mem[p := Prefixed(mem[p], bs)], p, last, lwd, data', spare')
    ensures Flat(data') == bs + Flat(data) && Ptrs(Cat(data', spare')) == Ptrs(Cat(data, spare))
    ensures bs != [] || data.Cons? ==> data'.Cons?
    ensures Compact(data, spare) ==> Compact(data', spare')
    ensures Swaps(mem, Ptrs(Cat(data, spare)), mem[p := Prefixed(mem[p], bs)], Ptrs(Cat(data', spare')))
  {
    var cells := Cat(data, spare);
    PrefixedReads(mem[p], cells.data, bs);
    SegWriteHead(mem, p, cells, Null, Prefixed(mem[p], bs), bs + cells.data);
    if data.Cons? {
      data', spare' := Cons(p, bs + data.data, data.tail), spare;
      NewHead(data, spare, bs + data.data);
      Assoc(bs, data.data, Flat(data.tail));
    } else if bs == [] {
      data', spare' := Nil, spare;
      assert bs + spare.data == spare.data;
    } else {
      data', spare' := Cons(p, bs + spare.data, Nil), spare.tail;
    }
  }

  /** memcpy in front of the first chunk. */
  method PrependToFirst(buf: EvBuffer, bs: seq<byte>)
    requires buf.Valid() && buf.HasChunk()
    requires buf.first in buf.heap.mem ==> |bs| <= FrontRoom(buf.heap.mem[buf.first])
    modifies buf`totalLen, buf`nAddForCb, buf`data, buf`spare, buf.heap
    ensures buf.Valid() && (old(buf.Tight()) ==> buf.Tight())
    ensures buf.Bytes() == bs + old(buf.Bytes())
    ensures bs != [] || old(buf.data.Cons?) ==> buf.data.Cons?
    ensures buf.nAddForCb == old(buf.nAddForCb) + |bs|
    ensures buf.first in old(buf.heap.mem) && buf.first in buf.heap.mem
    ensures buf.heap.mem[buf.first].misalign == old(FrontRoom(buf.heap.mem[buf.first])) - |bs|
    ensures Swaps(old(buf.heap.mem), old(buf.Own()), buf.heap.mem, buf.Own()) && buf.Own() == old(buf.Own())
  {
    var heap := buf.heap;
    ghost var data', spare' :=
      GrowFirst(heap.mem, buf.first, buf.last, buf.Lwd(), buf.data, buf.spare, bs);
    heap.mem := heap.mem[buf.first := Prefixed(heap.mem[buf.first], bs)];
    buf.totalLen, buf.nAddForCb := buf.totalLen + |bs|, buf.nAddForCb + |bs|;
    buf.data, buf.spare := data', spare';
  }

  /** A new chunk with `data` at the very end of its memory. */
  method ChainNewBefore(heap: Heap, next: Ptr, data: seq<byte>) returns (p: Ptr)
    modifies heap
    ensures p != Null && p !in old(heap.mem) && p in heap.mem
    ensures heap.mem - {p} == old(heap.mem)
    ensures heap.mem[p].next == next && Reads(heap.mem[p], data)
  {
    p := ChainNew(heap, |data|);
    PrefixedReads(heap.mem[p], [], data);
    assert data + [] == data;
    heap.mem := heap.mem[p := Prefixed(heap.mem[p], data).(next := next)];
  }

  /** A new first chunk. */
  lemma NewFirst(mem: Memory, p: Ptr, last: Ptr, lwd: Link, data: Cells, spare: Cells, n: Ptr, d: seq<byte>)
    requires Layout(mem, p, last, lwd, data, spare) && data.Cons? && d != []
    requires n != Null && n in mem && n !in Ptrs(Cat(data, spare)) && mem[n].next == p && Reads(mem[n], d)
    ensures Layout(mem, n, last, if lwd == First then Next(n) else lwd, Cons(n, d, data), spare)
  {
    LwdTarget(mem, p, data, Head(spare, Null)) by {
      SegCat(mem, p, data, spare, Null);
    }
  }

  /** The case of evbuffer_prepend that needs another chunk. */
  method PrependChunk(buf: EvBuffer, bs: seq<byte>)
    requires buf.Valid() && buf.data.Cons? && bs != []
    modifies buf`first, buf`lastWithDatap, buf`totalLen, buf`nAddForCb, buf`data, buf.heap
    ensures buf.Valid() && (old(buf.Tight()) ==> buf.Tight())
    ensures buf.Bytes() == bs + old(buf.Bytes())
    ensures old(buf.first) in old(buf.heap.mem)
    ensures buf.nAddForCb == old(buf.nAddForCb) + old(buf.heap.mem[buf.first].misalign)
    ensures Swaps(old(buf.heap.mem), old(buf.Own()), buf.heap.mem, buf.Own())
  {
    var chain := buf.first;
    var tmp := ChainNewBefore(buf.heap, chain, bs);
    LayoutFresh(old(buf.heap.mem), buf.heap.mem, tmp, chain, buf.last, buf.Lwd(), buf.data, buf.spare);
    NewFirst(buf.heap.mem, chain, buf.last, buf.Lwd(), buf.data, buf.spare, tmp, bs);
    assert buf.heap.mem - ({tmp} + buf.Own()) == (buf.heap.mem - {tmp}) - buf.Own();
    buf.first := tmp;
    if buf.lastWithDatap == FirstOf(buf) {
      buf.lastWithDatap := NextOf(tmp);
    }
    buf.totalLen, buf.nAddForCb := buf.totalLen + |bs|, buf.nAddForCb + buf.heap.mem[chain].misalign;
    buf.data := Cons(tmp, bs, buf.data);
  }

  method PrependBytes(buf: EvBuffer, bs: seq<byte>)
    requires buf.Valid() && buf.HasChunk() && buf.first in buf.heap.mem
    modifies buf`first, buf`lastWithDatap, buf`totalLen, buf`nAddForCb, buf`data, buf`spare, buf.heap
    ensures buf.Valid() && (old(buf.Tight()) ==> buf.Tight())
    ensures buf.Bytes() == bs + old(buf.Bytes())
    ensures buf.nAddForCb == old(buf.nAddForCb) + Min(|bs|, old(FrontRoom(buf.heap.mem[buf.first])))
    ensures Swaps(old(buf.heap.mem), old(buf.Own()), buf.heap.mem, buf.Own())
  {
    var room := FrontRoom(buf.heap.mem[buf.first]);
    if room >= |bs| {
      PrependToFirst(buf, bs);
    } else {
      FirstReads(buf.heap.mem, buf.first, buf.last, buf.Lwd(), buf.data, buf.spare);
      var k := |bs| - room;
      Assoc(bs[..k], bs[k..], buf.Bytes());
      assert bs == bs[..k] + bs[k..];
      if room != 0 {
        PrependToFirst(buf, bs[k..]);
      } else {
        assert bs[k..] == [] && [] + buf.Bytes() == buf.Bytes();
      }
      PrependChunk(buf, bs[..k]);
    }
  }

  lemma FirstReads(mem: Memory, p: Ptr, last: Ptr, lwd: Link, data: Cells, spare: Cells)
    requires Layout(mem, p, last, lwd, data, spare) && (data.Cons? || spare.Cons?)
    ensures p != Null && p in mem && 0 < |mem[p].buffer| && mem[p].misalign + mem[p].off <= |mem[p].buffer|
    ensures mem[p].off == 0 <==> data.Nil?
    ensures mem[p].off == |Cat(data, spare).data|
  {
  }

  /** evbuffer_prepend. What it tells the callbacks does not count the bytes
      that go to a new chunk. */
  method Prepend(buf: EvBuffer, bs: seq<byte>)
    requires buf.Valid()
    modifies buf, buf.heap
    ensures buf.Valid() && (old(buf.Tight()) ==> buf.Tight())
    ensures buf.Bytes() == bs + old(buf.Bytes())
    ensures Swaps(old(buf.heap.mem), old(buf.Own()), buf.heap.mem, buf.Own())
    ensures buf.Settled()
    ensures old(buf.Settled()) ==>
      var counted := Min(|bs|, old(PrependRoom(buf.heap.mem, buf.first, |bs|)));
      buf.reports == old(buf.reports) +
        Report(buf.hasCallbacks, old(buf.totalLen) + |bs| - counted, counted, 0)
  {
    EnsureChain(buf, |bs|);
    PrependBytes(buf, bs);
    InvokeCallbacks(buf);
  }
}
