/** evbuffer_pullup: making the first bytes contiguous. */
module EvPullup {
  import opened Segments
  import opened EvBuffers
  import opened EvQueue

  /** Memory b is b0 with `got` written at `at`; what follows is not said. */
  ghost predicate Filled(b0: seq<byte>, b: seq<byte>, at: nat, got: seq<byte>) {
    && |b| == |b0|
    && at + |got| <= |b|
    && b[..at] == b0[..at]
    && b[at..at + |got|] == got
  }

  lemma NothingFilled(b: seq<byte>, at: nat)
    requires at <= |b|
    ensures Filled(b, b, at, [])
  {
  }

  lemma FillMore(b0: seq<byte>, b: seq<byte>, at: nat, got: seq<byte>, bs: seq<byte>)
    requires Filled(b0, b, at, got) && at + |got| + |bs| <= |b|
    ensures Filled(b0, Copied(b, at + |got|, bs), at, got + bs)
  {
    var r := Copied(b, at + |got|, bs);
    assert r[..at] == r[..at + |got|][..at];
    assert r[at..at + |got| + |bs|] == r[..at + |got|][at..] + r[at + |got|..at + |got| + |bs|];
  }

  /** The window of a chunk whose memory was filled in two steps. */
  lemma FillWindow(c0: Chain, c: Chain, at: nat, got: seq<byte>, part: seq<byte>, pre: seq<byte>)
    requires c == c0.(buffer := c.buffer) && Filled(c0.buffer, c.buffer, at, got)
    requires c0.misalign + |pre| == at && c0.buffer[c0.misalign..at] == pre
    requires c0.off == |pre| + |got| + |part| && at + |got| + |part| <= |c0.buffer| && 0 < c0.off
    ensures Reads(c.(buffer := Copied(c.buffer, at + |got|, part)), pre + got + part)
    ensures part == [] ==> Reads(c, pre + got)
  {
    FillMore(c0.buffer, c.buffer, at, got, part);
    var b := Copied(c.buffer, at + |got|, part);
    assert b[c.misalign..c.misalign + c.off] == b[..at][c.misalign..] + b[at..at + |got| + |part|];
    assert c.buffer[c.misalign..at + |got|] == c.buffer[..at][c.misalign..] + c.buffer[at..at + |got|];
    assert c0.buffer[..at][c.misalign..] == pre;
    Assoc(pre, got, part);
  }

  /** What the two flags say about the link to the last chunk with data, once t
      stands in front of the chunks rd that are left. */
  ghost predicate Flags(t: Ptr, rd: Cells, lwd: Link, lastWithData: Ptr, removedLwd: bool, removedLwdp: bool) {
    && (removedLwd <==> rd.Nil?)
    && (rd.Cons? ==> lastWithData == LastOf(rd))
    && (removedLwdp ==> rd.Nil? || rd.tail.Nil?)
    && (!removedLwdp && rd.Cons? ==> lwd == LwdOf(Cons(t, [], rd)))
  }

  lemma LwdCons(t: Ptr, cs: Cells)
    requires cs.Cons?
    ensures LwdOf(Cons(t, [], cs)) == if LwdOf(cs).First? then Next(t) else LwdOf(cs)
  {
    LwdFirst(cs);
  }

  lemma FlagsStep(t: Ptr, rd: Cells, lwd: Link, lastWithData: Ptr, removedLwd: bool, removedLwdp: bool)
    requires rd.Cons? && NoDup(rd)
    requires Flags(t, rd, lwd, lastWithData, removedLwd, removedLwdp)
    ensures Flags(t, rd.tail, lwd, lastWithData,
                  removedLwd || rd.p == lastWithData, removedLwdp || Next(rd.p) == lwd)
  {
    LwdCons(t, rd);
    LwdFirst(rd);
    if rd.tail.Cons? {
      LastIn(rd.tail);
      LwdFirst(rd.tail);
      LwdCons(t, rd.tail);
    }
  }

  /** The loop invariant: of the bytes `goal`, `got` are in place in t's memory,
      which was c0's, and `need` more are wanted from the chunks rd with data; rs
      are the empty ones behind them. */
  ghost predicate Pulling(mem: Memory, chain: Ptr, last: Ptr, t: Ptr, c0: Chain, at: nat, goal: seq<byte>,
                          rd: Cells, rs: Cells, got: seq<byte>, need: nat) {
    && Layout(mem, chain, if rd.Nil? && rs.Nil? then Null else last, LwdOf(rd), rd, rs)
    && t in mem && t !in Ptrs(Cat(rd, rs))
    && need <= |Flat(rd)| && goal == got + Flat(rd)
    && mem[t] == c0.(buffer := mem[t].buffer)
    && Filled(c0.buffer, mem[t].buffer, at, got)
    && at + |got| + need <= |c0.buffer|
  }

  /** What the code sees of the next chunk. */
  lemma NextChunk(mem: Memory, chain: Ptr, last: Ptr, lwd: Link, rd: Cells, rs: Cells)
    requires Layout(mem, chain, last, lwd, rd, rs)
    ensures chain == Null <==> rd.Nil? && rs.Nil?
    ensures chain != Null ==>
      && chain in mem && Reads(mem[chain], Cat(rd, rs).data)
      && (rd.Cons? ==> chain == rd.p && rd.data == Cat(rd, rs).data)
      && (rd.Nil? ==> mem[chain].off == 0)
  {
  }

  /** The lists after a round: the chunk is freed, and t's record changes. */
  lemma PullMemory(mem: Memory, chain: Ptr, last: Ptr, t: Ptr, ch: Chain, rd: Cells, rs: Cells)
    returns (rd': Cells, rs': Cells)
    requires Layout(mem, chain, if rd.Nil? && rs.Nil? then Null else last, LwdOf(rd), rd, rs)
    requires chain != Null && t in mem && t !in Ptrs(Cat(rd, rs))
    ensures var cells, mem' := Cat(rd, rs), (mem - {chain})[t := ch];
      && cells.Cons? && Cat(rd', rs') == cells.tail && t !in Ptrs(cells.tail) && Flat(rd) == cells.data + Flat(rd')
      && chain in mem && Reads(mem[chain], cells.data) && chain != t
      && Layout(mem', mem[chain].next, if rd'.Nil? && rs'.Nil? then Null else last, LwdOf(rd'), rd', rs')
      && Swaps(mem, Ptrs(cells) + {t}, mem', Ptrs(cells.tail) + {t})
    ensures if rd.Cons? then rd' == rd.tail && rs' == rs && chain == rd.p && NoDup(rd) else rd' == Nil && rs == Cons(rs.p, [], rs')
  {
    NextChunk(mem, chain, last, LwdOf(rd), rd, rs);
    CatParts(rd, rs);
    var cells, mem1 := Cat(rd, rs), mem - {chain};
    SegPop(mem, chain, cells, Null);
    SegFrame(mem1, mem1[t := ch], mem[chain].next, cells.tail, Null);
    SwapsBoth(mem, Ptrs(cells), mem1, Ptrs(cells.tail), t, mem1[t := ch]);
    rd', rs' := if rd.Cons? then rd.tail else Nil, if rd.Cons? then rs else rs.tail;
    assert rd.Nil? ==> [] + Flat(rd') == [];
  }

  /** One round of the loop keeps its invariant: the next chunk is copied behind
      what is there and freed. */
  lemma PullRound(mem: Memory, chain: Ptr, last: Ptr, t: Ptr, c0: Chain, at: nat, goal: seq<byte>,
                  rd: Cells, rs: Cells, got: seq<byte>, need: nat, pos: nat)
    returns (rd': Cells, rs': Cells, got': seq<byte>, buffer: seq<byte>, mem': Memory)
    requires Pulling(mem, chain, last, t, c0, at, goal, rd, rs, got, need)
    requires chain != Null && pos == at + |got| && (chain in mem ==> mem[chain].off <= need)
    ensures chain in mem && 0 <= mem[chain].misalign + mem[chain].off <= |mem[chain].buffer|
    ensures pos + mem[chain].off <= |mem[t].buffer| && |got'| == |got| + mem[chain].off
    ensures buffer == Copied(mem[t].buffer, pos,
                             mem[chain].buffer[mem[chain].misalign..mem[chain].misalign + mem[chain].off])
    ensures mem' == (mem - {chain})[t := mem[t].(buffer := buffer)]
    ensures Pulling(mem', mem[chain].next, last, t, c0, at, goal, rd', rs', got', need - mem[chain].off)
    ensures rd.Cons? ==> rd' == rd.tail && rs' == rs && chain == rd.p && NoDup(rd)
    ensures rd.Nil? ==> rd'.Nil?
    ensures Cat(rd', rs') == Cat(rd, rs).tail && Cat(rd, rs).Cons?
    ensures Swaps(mem, Ptrs(Cat(rd, rs)) + {t}, mem', Ptrs(Cat(rd', rs')) + {t})
  {
    var cells := Cat(rd, rs);
    var off := mem[chain].off;
    NextChunk(mem, chain, last, LwdOf(rd), rd, rs);
    assert |mem[t].buffer| == |c0.buffer|;
    FillMore(c0.buffer, mem[t].buffer, at, got, cells.data);
    buffer := Copied(mem[t].buffer, pos, cells.data);
    got' := got + cells.data;
    mem' := (mem - {chain})[t := mem[t].(buffer := buffer)];
    rd', rs' := PullMemory(mem, chain, last, t, mem[t].(buffer := buffer), rd, rs);
    Assoc(got, cells.data, Flat(rd'));
    hide Layout, Filled, Swaps, Seg, Cat;
  }

  /** A whole chunk copied into tmp at `at`, then freed. */
  method MoveInto(heap: Heap, tmp: Ptr, at: nat, chain: Ptr)
    requires tmp in heap.mem && chain in heap.mem
    requires heap.mem[chain].misalign + heap.mem[chain].off <= |heap.mem[chain].buffer|
    requires at + heap.mem[chain].off <= |heap.mem[tmp].buffer|
    modifies heap
    ensures var c := old(heap.mem[chain]);
      heap.mem == (old(heap.mem) - {chain})[tmp := old(heap.mem[tmp]).(
        buffer := Copied(old(heap.mem[tmp].buffer), at, c.buffer[c.misalign..c.misalign + c.off]))]
  {
    var c := heap.mem[chain];
    var buffer := Copied(heap.mem[tmp].buffer, at, c.buffer[c.misalign..c.misalign + c.off]);
    heap.mem := (heap.mem - {chain})[tmp := heap.mem[tmp].(buffer := buffer)];
  }

  lemma PullNext(mem: Memory, chain: Ptr, last: Ptr, t: Ptr, c0: Chain, at: nat, goal: seq<byte>,
                 rd: Cells, rs: Cells, got: seq<byte>, need: nat)
    requires Pulling(mem, chain, last, t, c0, at, goal, rd, rs, got, need)
    ensures chain == Null <==> rd.Nil? && rs.Nil?
    ensures chain != Null ==> chain in mem && chain != t && (rd.Nil? ==> mem[chain].off == 0)
    ensures t in mem && need <= |Flat(rd)|
  {
    NextChunk(mem, chain, if rd.Nil? && rs.Nil? then Null else last, LwdOf(rd), rd, rs);
  }

  /** The loop of evbuffer_pullup: copies every chunk that is wholly pulled into
      tmp, from position at0 on, and frees it. */
  method PullChunks(heap: Heap, tmp: Ptr, at0: nat, first: Ptr, size0: nat, lwd: Slot, lastWithData: Ptr,
                    ghost last: Ptr, ghost rd0: Cells, ghost rs0: Cells)
    returns (chain: Ptr, size: nat, removedLwd: bool, removedLwdp: bool,
             ghost rd: Cells, ghost rs: Cells, ghost got: seq<byte>)
    requires tmp in heap.mem
    requires Pulling(heap.mem, first, last, tmp, heap.mem[tmp], at0, Flat(rd0), rd0, rs0, [], size0)
    requires Flags(tmp, rd0, LinkOf(lwd), lastWithData, false, false)
    modifies heap
    ensures Pulling(heap.mem, chain, last, tmp, old(heap.mem[tmp]), at0, Flat(rd0), rd, rs, got, size)
    ensures Flags(tmp, rd, LinkOf(lwd), lastWithData, removedLwd, removedLwdp)
    ensures |got| + size == size0 && (rs == rs0 || rs.Nil?)
    ensures chain != Null ==> chain in heap.mem && size < heap.mem[chain].off
    ensures Swaps(old(heap.mem), Ptrs(Cat(rd0, rs0)) + {tmp}, heap.mem, Ptrs(Cat(rd, rs)) + {tmp})
  {
    hide Filled, Seg, AllData, AllEmpty, Flat, Layout, Pulling, Ptrs;
    chain, size, removedLwd, removedLwdp, rd, rs, got := first, size0, false, false, rd0, rs0, [];
    ghost var c0 := heap.mem[tmp];
    PullNext(heap.mem, chain, last, tmp, c0, at0, Flat(rd0), rd, rs, got, size);
    while chain != Null && size >= heap.mem[chain].off
      invariant Pulling(heap.mem, chain, last, tmp, c0, at0, Flat(rd0), rd, rs, got, size)
      invariant tmp in heap.mem && (chain != Null ==> chain in heap.mem && chain != tmp)
      invariant Flags(tmp, rd, LinkOf(lwd), lastWithData, removedLwd, removedLwdp)
      invariant |got| + size == size0 && (rd.Cons? ==> rs == rs0)
      invariant Swaps(old(heap.mem), Ptrs(Cat(rd0, rs0)) + {tmp}, heap.mem, Ptrs(Cat(rd, rs)) + {tmp})
      decreases Cat(rd, rs)
    {
      var at := at0 + (size0 - size);
      ghost var rd', rs', got', _, mem' :=
        PullRound(heap.mem, chain, last, tmp, c0, at0, Flat(rd0), rd, rs, got, size, at);
      if rd.Cons? {
        FlagsStep(tmp, rd, LinkOf(lwd), lastWithData, removedLwd, removedLwdp);
      }
      var next := heap.mem[chain].next;
      size := size - heap.mem[chain].off;
      if chain == lastWithData {
        removedLwd := true;
      }
      if NextOf(chain) == lwd {
        removedLwdp := true;
      }
      MoveInto(heap, tmp, at, chain);
      assert heap.mem == mem';
      chain, rd, rs, got := next, rd', rs', got';
      PullNext(heap.mem, chain, last, tmp, c0, at0, Flat(rd0), rd, rs, got, size);
    }
    PullNext(heap.mem, chain, last, tmp, c0, at0, Flat(rd0), rd, rs, got, size);
  }

  /** Every chunk was pulled: t is all that is left. */
  lemma PullAll(mem: Memory, last: Ptr, t: Ptr, c0: Chain, at: nat, goal: seq<byte>,
                rd: Cells, rs: Cells, got: seq<byte>, need: nat, pre: seq<byte>)
    returns (data': Cells, mem': Memory)
    requires Pulling(mem, Null, last, t, c0, at, goal, rd, rs, got, need) && t != Null
    requires c0.misalign + |pre| == at && c0.buffer[c0.misalign..at] == pre
    requires 0 < c0.off == |pre| + |got| + need
    ensures need == 0 && rd.Nil? && rs.Nil? && mem' == mem[t := mem[t].(next := Null)]
    ensures Layout(mem', t, t, First, data', rs)
    ensures data'.Cons? && |data'.data| == c0.off && Flat(data') == pre + goal
    ensures Swaps(mem, Ptrs(Cat(rd, rs)) + {t}, mem', Ptrs(Cat(data', rs)))
  {
    NextChunk(mem, Null, Null, LwdOf(rd), rd, rs);
    FillWindow(c0, mem[t], at, got, [], pre);
    data', mem' := Cons(t, pre + got, Nil), mem[t := mem[t].(next := Null)];
    assert Flat(data') == pre + got;
    SwapsOne(mem, {t}, t, mem[t].(next := Null));
  }

  lemma CutMiddle(pre: seq<byte>, got: seq<byte>, rest: seq<byte>, n: nat)
    requires n <= |rest|
    ensures pre + got + rest[..n] + rest[n..] == pre + (got + rest)
  {
  }

  /** Cutting the pulled part off the chunk where the loop stopped, and linking t
      in front of it. */
  lemma PullPart(mem: Memory, chain: Ptr, last: Ptr, t: Ptr, c0: Chain, at: nat, goal: seq<byte>,
                 rd: Cells, rs: Cells, got: seq<byte>, need: nat, pre: seq<byte>, pos: nat)
    returns (data': Cells, mem': Memory, part: seq<byte>)
    requires Pulling(mem, chain, last, t, c0, at, goal, rd, rs, got, need) && t != Null
    requires chain != Null && chain in mem && need < mem[chain].off && pos == at + |got|
    requires c0.misalign + |pre| == at && c0.buffer[c0.misalign..at] == pre
    requires 0 < c0.off == |pre| + |got| + need
    ensures chain != t && rd.Cons? && mem[chain].misalign + need <= |mem[chain].buffer| && |part| == need
    ensures part == mem[chain].buffer[mem[chain].misalign..mem[chain].misalign + need]
    ensures pos + |part| <= |mem[t].buffer|
    ensures mem' == mem[chain := mem[chain].(misalign := mem[chain].misalign + need, off := mem[chain].off - need)]
                       [t := mem[t].(next := chain, buffer := Copied(mem[t].buffer, pos, part))]
    ensures Layout(mem', t, last, LwdOf(Cons(t, [], rd)), data', rs)
    ensures data'.Cons? && |data'.data| == c0.off && Flat(data') == pre + goal
    ensures Swaps(mem, Ptrs(Cat(rd, rs)) + {t}, mem', Ptrs(Cat(data', rs)))
  {
    NextChunk(mem, chain, last, LwdOf(rd), rd, rs);
    LwdCons(t, rd);
    var rd', mem1 := CutFront(mem, chain, last, LwdOf(rd), rd, rs, need);
    TakeReads(mem[chain], rd.data, need);
    part := rd.data[..need];
    FillWindow(c0, mem[t], at, got, part, pre);
    mem' := mem1[t := mem[t].(next := chain, buffer := Copied(mem[t].buffer, pos, part))];
    LayoutSwaps(mem1, {t}, mem', {t}, chain, last, LwdOf(rd), rd', rs);
    NewFirst(mem', chain, last, LwdOf(rd), rd', rs, t, pre + got + part);
    data' := Cons(t, pre + got + part, rd');
    TakeConcat(rd.data, Flat(rd.tail), need);
    CutMiddle(pre, got, Flat(rd), need);
    SwapsBoth(mem, Ptrs(Cat(rd, rs)), mem1, Ptrs(Cat(rd', rs)), t, mem');
  }

  /** The end of evbuffer_pullup, after its loop. */
  method PullTail(buf: EvBuffer, at: nat, chain: Ptr, size: nat, removedLwd: bool, removedLwdp: bool,
                  ghost c0: Chain, ghost at0: nat, ghost goal: seq<byte>, ghost rd: Cells, ghost rs: Cells,
                  ghost got: seq<byte>, ghost pre: seq<byte>, ghost lastWithData: Ptr)
    requires buf.first != Null
    requires Pulling(buf.heap.mem, chain, buf.last, buf.first, c0, at0, goal, rd, rs, got, size)
    requires chain != Null ==> chain in buf.heap.mem && size < buf.heap.mem[chain].off
    requires buf.Homed()
    requires Flags(buf.first, rd, buf.Lwd(), lastWithData, removedLwd, removedLwdp)
    requires c0.misalign + |pre| == at0 && c0.buffer[c0.misalign..at0] == pre
    requires 0 < c0.off == |pre| + |got| + size && at == at0 + |got|
    modifies buf`last, buf`lastWithDatap, buf`data, buf`spare, buf.heap
    ensures Layout(buf.heap.mem, buf.first, buf.last, buf.Lwd(), buf.data, buf.spare) && buf.spare == rs && buf.Homed()
    ensures buf.Bytes() == pre + goal
    ensures buf.data.Cons? && |buf.data.data| == c0.off
    ensures Swaps(old(buf.heap.mem), Ptrs(Cat(rd, rs)) + {buf.first}, buf.heap.mem, buf.Own())
  {
    var heap, tmp := buf.heap, buf.first;
    if chain != Null {
      ghost var data', mem', _ :=
        PullPart(heap.mem, chain, buf.last, tmp, c0, at0, goal, rd, rs, got, size, pre, at);
      var c := heap.mem[chain];
      var bs := c.buffer[c.misalign..c.misalign + size];
      heap.mem := heap.mem[chain := c.(misalign := c.misalign + size, off := c.off - size)]
                          [tmp := heap.mem[tmp].(next := chain, buffer := Copied(heap.mem[tmp].buffer, at, bs))];
      assert heap.mem == mem';
      buf.data, buf.spare := data', rs;
    } else {
      ghost var data', mem' := PullAll(heap.mem, buf.last, tmp, c0, at0, goal, rd, rs, got, size, pre);
      heap.mem := heap.mem[tmp := heap.mem[tmp].(next := Null)];
      buf.last := tmp;
      buf.data, buf.spare := data', rs;
    }
    if removedLwd {
      buf.lastWithDatap := FirstOf(buf);
    } else if removedLwdp {
      var next := heap.mem[buf.first].next;
      buf.lastWithDatap := if next != Null && heap.mem[next].off != 0 then NextOf(buf.first) else FirstOf(buf);
    }
  }

  /** From the start of the loop of evbuffer_pullup to its end: `pre` is in the
      first chunk already, the rest comes from the chunks rd0. */
  method PullInto(buf: EvBuffer, at0: nat, chain0: Ptr, size0: nat, ghost rd0: Cells, ghost pre: seq<byte>)
    requires buf.first != Null && buf.first in buf.heap.mem
    requires Pulling(buf.heap.mem, chain0, buf.last, buf.first, buf.heap.mem[buf.first], at0, Flat(rd0),
                     rd0, buf.spare, [], size0)
    requires rd0.Cons? && Flags(buf.first, rd0, buf.Lwd(), LastOf(rd0), false, false)
    requires buf.lastWithDatap.NextOf? && buf.lastWithDatap.chain in buf.heap.mem
    requires buf.heap.mem[buf.lastWithDatap.chain].next == LastOf(rd0)
    requires var c0 := buf.heap.mem[buf.first];
      c0.misalign + |pre| == at0 && c0.buffer[c0.misalign..at0] == pre && 0 < c0.off == |pre| + size0
    modifies buf`last, buf`lastWithDatap, buf`data, buf`spare, buf.heap
    ensures Layout(buf.heap.mem, buf.first, buf.last, buf.Lwd(), buf.data, buf.spare) && buf.Homed()
    ensures buf.Bytes() == pre + Flat(rd0)
    ensures buf.data.Cons? && |buf.data.data| == |pre| + size0
    ensures Swaps(old(buf.heap.mem), Ptrs(Cat(rd0, old(buf.spare))) + {buf.first}, buf.heap.mem, buf.Own())
    ensures buf.spare == old(buf.spare) || buf.spare.Nil?
  {
    var heap, tmp := buf.heap, buf.first;
    var lastWithData := buf.Deref(buf.lastWithDatap);
    ghost var c0 := heap.mem[tmp];
    var chain, size, removedLwd, removedLwdp, rd, rs, got :=
      PullChunks(heap, tmp, at0, chain0, size0, buf.lastWithDatap, lastWithData, buf.last, rd0, buf.spare);
    PullTail(buf, at0 + (size0 - size), chain, size, removedLwd, removedLwdp, c0, at0, Flat(rd0), rd, rs, got, pre,
             lastWithData);
  }

  /** What the first chunk holds stays where it is. */
  lemma PullHere(mem: Memory, p: Ptr, last: Ptr, lwd: Link, data: Cells, spare: Cells, n: nat)
    returns (mem': Memory)
    requires Layout(mem, p, last, lwd, data, spare) && data.Cons?
    requires |data.data| < n <= |Flat(data)| && (p in mem ==> mem[p].misalign + n <= |mem[p].buffer|)
    ensures p != Null && p in mem && mem' == mem[p := mem[p].(off := n)] && Reads(mem[p], data.data)
    ensures Pulling(mem', mem[p].next, last, p, mem'[p], mem[p].misalign + mem[p].off, Flat(data.tail),
                    data.tail, spare, [], n - mem[p].off)
    ensures lwd.Next? && lwd.chain in mem' && data.tail.Cons? && mem'[lwd.chain].next == LastOf(data.tail)
    ensures Flags(p, data.tail, lwd, LastOf(data.tail), false, false)
    ensures Swaps(mem, Ptrs(Cat(data, spare)), mem', Ptrs(Cat(data.tail, spare)) + {p})
  {
    Ends(mem, p, last, lwd, data, spare);
    LwdTarget(mem, p, data, Head(spare, Null));
    mem' := mem[p := mem[p].(off := n)];
    SegFrame(mem, mem', mem[p].next, Cat(data.tail, spare), Null);
    SwapsOne(mem, Ptrs(Cat(data, spare)), p, mem[p].(off := n));
    NothingFilled(mem[p].buffer, mem[p].misalign + mem[p].off);
    assert [] + Flat(data.tail) == Flat(data.tail);
  }

  /** A fresh chunk for everything. */
  lemma PullThere(mem: Memory, t: Ptr, p: Ptr, last: Ptr, lwd: Link, data: Cells, spare: Cells, n: nat)
    returns (mem': Memory)
    requires Layout(mem, p, last, lwd, data, spare) && data.Cons?
    requires |data.data| < n <= |Flat(data)|
    requires t in mem && t !in Ptrs(Cat(data, spare)) && mem[t].misalign == 0 && n <= |mem[t].buffer|
    ensures mem' == mem[t := mem[t].(off := n)]
    ensures Pulling(mem', p, last, t, mem'[t], 0, Flat(data), data, spare, [], n)
    ensures lwd.Next? && lwd.chain in mem' && mem'[lwd.chain].next == LastOf(data)
    ensures Flags(t, data, lwd, LastOf(data), false, false)
  {
    Ends(mem, p, last, lwd, data, spare);
    LwdTarget(mem, p, data, Head(spare, Null));
    mem' := mem[t := mem[t].(off := n)];
    SegFrame(mem, mem', p, Cat(data, spare), Null);
    NothingFilled(mem[t].buffer, 0);
    assert [] + Flat(data) == Flat(data);
  }

  /** evbuffer_pullup when the first chunk does not hold n bytes yet: they go
      behind what it holds if there is room, else to a new first chunk. */
  method PullMore(buf: EvBuffer, n: nat)
    requires buf.Valid() && buf.data.Cons? && |buf.data.data| < n <= buf.totalLen
    modifies buf`first, buf`last, buf`lastWithDatap, buf`data, buf`spare, buf.heap
    ensures buf.Valid() && (buf.spare == old(buf.spare) || buf.spare.Nil?) && buf.data.Cons?
    ensures buf.Bytes() == old(buf.Bytes()) && n <= |buf.data.data|
    ensures Swaps(old(buf.heap.mem), old(buf.Own()), buf.heap.mem, buf.Own())
  {
    var heap, chain := buf.heap, buf.first;
    var c := heap.mem[chain];
    if |c.buffer| - c.misalign >= n {
      ghost var mem' := PullHere(heap.mem, chain, buf.last, buf.Lwd(), buf.data, buf.spare, n);
      heap.mem := heap.mem[chain := c.(off := n)];
      PullInto(buf, c.misalign + c.off, c.next, n - c.off, buf.data.tail, buf.data.data);
    } else {
      var tmp := ChainNew(heap, n);
      LayoutFresh(old(heap.mem), heap.mem, tmp, chain, buf.last, buf.Lwd(), buf.data, buf.spare);
      ghost var mem' := PullThere(heap.mem, tmp, chain, buf.last, buf.Lwd(), buf.data, buf.spare, n);
      SwapsFresh(old(heap.mem), tmp, heap.mem, buf.Own(), heap.mem);
      heap.mem := heap.mem[tmp := heap.mem[tmp].(off := n)];
      buf.first := tmp;
      PullInto(buf, 0, chain, n, buf.data, []);
    }
  }

  /** evbuffer_pullup: makes the first `size` bytes contiguous. */
  method Pullup(buf: EvBuffer, size: int) returns (ok: bool)
    requires buf.Valid()
    modifies buf`first, buf`last, buf`lastWithDatap, buf`data, buf`spare, buf.heap
    ensures buf.Valid() && (old(buf.Tight()) ==> buf.Tight()) && buf.Bytes() == old(buf.Bytes())
    ensures var n := if size < 0 then buf.totalLen else size;
      && (ok <==> 0 < n <= buf.totalLen)
      && (ok ==> buf.first in buf.heap.mem && n <= buf.heap.mem[buf.first].off)
      && (!ok ==> buf.heap.mem == old(buf.heap.mem))
    ensures Swaps(old(buf.heap.mem), old(buf.Own()), buf.heap.mem, buf.Own())
  {
    var n := if size < 0 then buf.totalLen else size;
    if n == 0 || n > buf.totalLen {
      return false;
    }
    ok := true;
    FirstReads(buf.heap.mem, buf.first, buf.last, buf.Lwd(), buf.data, buf.spare);
    if buf.heap.mem[buf.first].off < n {
      PullMore(buf, n);
      FirstReads(buf.heap.mem, buf.first, buf.last, buf.Lwd(), buf.data, buf.spare);
    }
  }
}
