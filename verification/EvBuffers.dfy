/** The evbuffer: a singly linked list of memory chunks with a cached length, a
    pointer to the last chunk and a pointer to the link that reaches the last
    chunk holding data. */
module EvBuffers {
  import opened Segments

  const MIN_BUFFER_SIZE := 1024
  const EVBUFFER_CHAIN_SIZE := 48

  /** The address of a chain pointer: some buffer's `first` field or the `next`
      field of a chain. */
  datatype Slot = FirstOf(buf: EvBuffer) | NextOf(chain: Ptr)

  /** The same, seen from one buffer: its own `first` field or a chain's `next`. */
  datatype Link = First | Next(chain: Ptr)

  ghost function LinkOf(l: Slot): Link {
    match l
    case FirstOf(_) => First
    case NextOf(p) => Next(p)
  }

  /** What a callback is told about a change. */
  datatype CbInfo = CbInfo(origSize: int, nAdded: nat, nDeleted: nat)

  class Heap {
    var mem: Memory
  }

  function Min(a: nat, b: nat): (m: nat)
    ensures m <= a && m <= b && (m == a || m == b)
  {
    if a <= b then a else b
  }

  /** Where lastWithDatap must point when the chunks of `data` are those with
      data. */
  ghost function LwdOf(data: Cells): Link {
    if data.Nil? || data.tail.Nil? then First
    else if data.tail.tail.Nil? then Next(data.p)
    else LwdOf(data.tail)
  }

  /** The chunks `data`, all with data, and then the empty chunks `spare` are
      linked from `first` to a null pointer, none twice, `last` is the last of
      them and `lwd` the link to the last of `data`. */
  ghost predicate Layout(mem: Memory, first: Ptr, last: Ptr, lwd: Link, data: Cells, spare: Cells) {
    && Seg(mem, first, Cat(data, spare), Null)
    && NoDup(Cat(data, spare))
    && AllData(data) && AllEmpty(spare)
    && last == LastOf(Cat(data, spare))
    && lwd == LwdOf(data)
  }

  /** The same with any chunks behind `data`: the link may be behind. */
  ghost predicate Listed(mem: Memory, first: Ptr, last: Ptr, lwd: Link, data: Cells, rest: Cells) {
    && Seg(mem, first, Cat(data, rest), Null)
    && NoDup(Cat(data, rest))
    && AllData(data)
    && last == LastOf(Cat(data, rest))
    && lwd == LwdOf(data)
  }

  /** The buffer header and memory satisfy the invariant. */
  ghost predicate Intact(mem: Memory, first: Ptr, last: Ptr, lwd: Link) {
    exists data, spare :: Layout(mem, first, last, lwd, data, spare)
  }

  /** No empty chunk, except a lone one. */
  ghost predicate Compact(data: Cells, spare: Cells) {
    spare.Nil? || (data.Nil? && spare.tail.Nil?)
  }

  ghost function Report(installed: bool, orig: int, added: nat, deleted: nat): seq<CbInfo> {
    if installed && (added != 0 || deleted != 0) then [CbInfo(orig, added, deleted)] else []
  }

  class EvBuffer {
    const heap: Heap
    var first: Ptr
    var last: Ptr
    var lastWithDatap: Slot
    var totalLen: nat

    var nAddForCb: nat
    var nDelForCb: nat
    const hasCallbacks: bool
    var reports: seq<CbInfo>
    // The length when the two counters were last cleared.
    ghost var settledLen: nat

    // The chunks with data, then the empty ones.
    ghost var data: Cells
    ghost var spare: Cells

    /** evbuffer_new */
    constructor (heap: Heap, hasCallbacks: bool)
      ensures Valid() && Tight() && Settled() && Own() == {}
      ensures Bytes() == [] && this.heap == heap && reports == []
      ensures this.hasCallbacks == hasCallbacks
    {
      this.heap, this.hasCallbacks := heap, hasCallbacks;
      first, last, totalLen := Null, Null, 0;
      lastWithDatap := FirstOf(this);
      nAddForCb, nDelForCb, reports, settledLen := 0, 0, [], 0;
      data, spare := Nil, Nil;
    }

    /** The bytes the buffer stands for. */
    ghost function Bytes(): seq<byte>
      reads this
    {
      Flat(data)
    }

    ghost function Own(): set<Ptr>
      reads this
    {
      Ptrs(Cat(data, spare))
    }

    ghost function Lwd(): Link
      reads this
    {
      LinkOf(lastWithDatap)
    }

    /** lastWithDatap does not point into another buffer's header. */
    ghost predicate Homed()
      reads this
    {
      lastWithDatap.FirstOf? ==> lastWithDatap.buf == this
    }

    /** The representation invariant. */
    ghost predicate Valid()
      reads this, heap
    {
      && Layout(heap.mem, first, last, Lwd(), data, spare)
      && Homed()
      && totalLen == |Flat(data)|
    }

    /** The same with any chunks behind those that the link knows of. */
    ghost predicate Behind()
      reads this, heap
    {
      && Listed(heap.mem, first, last, Lwd(), data, spare)
      && Homed()
      && totalLen == |Flat(data)| + |Flat(spare)|
    }

    /** The chunks hold the bytes and are linked up to the last one. What the link
        to the last chunk with data is worth is not said. */
    ghost predicate Linked()
      reads this, heap
    {
      && Seg(heap.mem, first, Cat(data, spare), Null)
      && NoDup(Cat(data, spare)) && AllEmpty(spare)
      && last == LastOf(Cat(data, spare))
      && Homed()
      && totalLen == |Flat(data)|
    }

    /** No empty chunk, except a lone one. */
    ghost predicate Tight()
      reads this
    {
      Compact(data, spare)
    }

    ghost predicate HasChunk()
      reads this
    {
      data.Cons? || spare.Cons?
    }

    /** The counters agree with the length when they were last cleared. */
    ghost predicate Accounted()
      reads this
    {
      settledLen + nAddForCb == totalLen + nDelForCb
    }

    /** Nothing left to tell the callbacks. */
    ghost predicate Settled()
      reads this
    {
      nAddForCb == nDelForCb == 0 && settledLen == totalLen
    }

    /** `*l` */
    function Deref(l: Slot): Ptr
      requires l.NextOf? ==> l.chain in heap.mem
      reads heap, if l.FirstOf? then {l.buf} else {}
    {
      match l
      case FirstOf(b) => b.first
      case NextOf(p) => heap.mem[p].next
    }

    /** `*l = p` */
    method Store(l: Slot, p: Ptr)
      requires if l.FirstOf? then l.buf == this else l.chain in heap.mem
      modifies this`first, heap
      ensures l.FirstOf? ==> first == p && heap.mem == old(heap.mem)
      ensures l.NextOf? ==> first == old(first) &&
                            heap.mem == old(heap.mem[l.chain := heap.mem[l.chain].(next := p)])
    {
      match l
      case FirstOf(b) => first := p;
      case NextOf(q) => heap.mem := heap.mem[q := heap.mem[q].(next := p)];
    }
  }

  // ----- memory

  /** memcpy into part of a chunk's memory. */
  function Copied(buffer: seq<byte>, at: nat, data: seq<byte>): (r: seq<byte>)
    requires at + |data| <= |buffer|
    ensures |r| == |buffer| && r[at..at + |data|] == data
    ensures r[..at] == buffer[..at] && r[at + |data|..] == buffer[at + |data|..]
  {
    buffer[..at] + data + buffer[at + |data|..]
  }

  lemma {:induction false} AddressBound(ps: set<Ptr>) returns (bound: int)
    ensures forall a :: Addr(a) in ps ==> a < bound
  {
    if ps == {} {
      bound := 0;
    } else {
      var p :| p in ps;
      bound := AddressBound(ps - {p});
      if p.Addr? && p.a >= bound {
        bound := p.a + 1;
      }
    }
  }

  /** evbuffer_chain_new: any free address, at least `size` bytes of memory. */
  method ChainNew(heap: Heap, size: nat) returns (p: Ptr)
    modifies heap
    ensures p != Null && p !in old(heap.mem) && p in heap.mem
    ensures heap.mem - {p} == old(heap.mem)
    ensures heap.mem[p].next == Null && Reads(heap.mem[p], [])
    ensures heap.mem[p].misalign == heap.mem[p].off == 0 && size <= |heap.mem[p].buffer|
    ensures 976 <= |heap.mem[p].buffer| && (|heap.mem[p].buffer| == 976 || |heap.mem[p].buffer| < 2 * size + 48)
  {
    var toAlloc := MIN_BUFFER_SIZE;
    while toAlloc < size + EVBUFFER_CHAIN_SIZE
      invariant MIN_BUFFER_SIZE <= toAlloc && (toAlloc == 1024 || toAlloc < 2 * (size + EVBUFFER_CHAIN_SIZE))
      decreases size + EVBUFFER_CHAIN_SIZE - toAlloc
    {
      toAlloc := toAlloc * 2;
    }
    ghost var bound := AddressBound(heap.mem.Keys);
    assert Addr(bound) !in heap.mem;
    var a: int :| Addr(a) !in heap.mem;
    p := Addr(a);
    heap.mem := heap.mem[p := Chain(Null, 0, 0, seq(toAlloc - EVBUFFER_CHAIN_SIZE, _ => 0))];
  }

  /** evbuffer_free_all_chains */
  method FreeAllChains(heap: Heap, chain: Ptr, ghost cs: Cells)
    requires Seg(heap.mem, chain, cs, Null) && NoDup(cs)
    modifies heap
    ensures heap.mem == old(heap.mem) - Ptrs(cs)
  {
    var c := chain;
    ghost var rest := cs;
    SegPtrs(heap.mem, chain, cs, Null);
    while c != Null
      invariant Seg(heap.mem, c, rest, Null) && NoDup(rest)
      invariant heap.mem - Ptrs(rest) == old(heap.mem) - Ptrs(cs)
      decreases rest
    {
      SegPop(heap.mem, c, rest, Null);
      var next := heap.mem[c].next;
      heap.mem := heap.mem - {c};
      c := next;
      rest := rest.tail;
    }
  }

  // ----- callbacks

  /** evbuffer_run_callbacks without deferral; no callback changes the buffer.
      When the counters are right, the size reported is settledLen. */
  method InvokeCallbacks(buf: EvBuffer)
    modifies buf`nAddForCb, buf`nDelForCb, buf`reports, buf`settledLen
    ensures buf.Settled()
    ensures buf.reports == old(buf.reports) +
      Report(buf.hasCallbacks, old(buf.totalLen + buf.nDelForCb - buf.nAddForCb),
             old(buf.nAddForCb), old(buf.nDelForCb))
    ensures old(buf.Accounted()) ==>
      (buf.reports == old(buf.reports) +
        Report(buf.hasCallbacks, old(buf.settledLen), old(buf.nAddForCb), old(buf.nDelForCb)))
  {
    if buf.hasCallbacks && (buf.nAddForCb != 0 || buf.nDelForCb != 0) {
      var origSize := buf.totalLen + buf.nDelForCb - buf.nAddForCb;
      buf.reports := buf.reports + [CbInfo(origSize, buf.nAddForCb, buf.nDelForCb)];
    }
    buf.nAddForCb, buf.nDelForCb := 0, 0;
    buf.settledLen := buf.totalLen;
  }

  // ----- changes elsewhere in memory

  /** A buffer whose chunks are not among those swapped is not affected. */
  lemma LayoutSwaps(mem: Memory, own: set<Ptr>, mem': Memory, own': set<Ptr>,
                    p: Ptr, last: Ptr, lwd: Link, data: Cells, spare: Cells)
    requires Layout(mem, p, last, lwd, data, spare) && Ptrs(Cat(data, spare)) !! own
    requires Swaps(mem, own, mem', own')
    ensures Layout(mem', p, last, lwd, data, spare) && Ptrs(Cat(data, spare)) !! own'
  {
    SegSwaps(mem, own, mem', own', p, Cat(data, spare), Null);
  }

  lemma LayoutFresh(mem: Memory, mem': Memory, n: Ptr, p: Ptr, last: Ptr, lwd: Link, data: Cells, spare: Cells)
    requires Layout(mem, p, last, lwd, data, spare) && n !in mem && mem' - {n} == mem
    ensures Layout(mem', p, last, lwd, data, spare) && n !in Ptrs(Cat(data, spare))
  {
    assert mem - {} == mem;
    LayoutSwaps(mem, {}, mem', {n}, p, last, lwd, data, spare);
  }

  // ----- the link to the last chunk with data

  lemma {:induction false} LwdTarget(mem: Memory, p: Ptr, data: Cells, q: Ptr)
    requires Seg(mem, p, data, q)
    ensures LwdOf(data).Next? ==>
      LwdOf(data).chain in Ptrs(data) && LwdOf(data).chain in mem && mem[LwdOf(data).chain].next == LastOf(data)
    ensures LwdOf(data).First? <==> data.Nil? || data.tail.Nil?
    ensures data.Cons? ==> LastOf(data) in mem && LastOf(data) != Null && mem[LastOf(data)].next == q
    ensures data.Cons? && AllData(data) ==> mem[LastOf(data)].off != 0
    decreases data
  {
    if data.Cons? {
      LwdTarget(mem, mem[p].next, data.tail, q);
    }
  }

  /** What the code can reach of a buffer. */
  lemma Ends(mem: Memory, p: Ptr, last: Ptr, lwd: Link, data: Cells, spare: Cells)
    requires Layout(mem, p, last, lwd, data, spare)
    ensures Seg(mem, p, data, Head(spare, Null)) && Seg(mem, Head(spare, Null), spare, Null)
    ensures NoDup(data) && NoDup(spare) && Ptrs(data) !! Ptrs(spare)
    ensures Ptrs(Cat(data, spare)) == Ptrs(data) + Ptrs(spare)
    ensures lwd.Next? ==> data.Cons? && lwd.chain in mem && mem[lwd.chain].next == LastOf(data)
    ensures lwd.First? && data.Cons? ==> p == LastOf(data)
    ensures data.Cons? ==>
      && LastOf(data) in mem && LastOf(data) != Null && LastOf(data) in Ptrs(data)
      && mem[LastOf(data)].off != 0 && mem[LastOf(data)].next == Head(spare, Null)
    ensures data.Nil? ==> p == Head(spare, Null)
    ensures spare.Nil? ==> last == LastOf(data) && mem - Ptrs(spare) == mem
    ensures spare.Cons? ==> spare.p != Null && spare.p in mem && mem[spare.p].off == 0
  {
    SegCat(mem, p, data, spare, Null);
    CatParts(data, spare);
    LwdTarget(mem, p, data, Head(spare, Null));
    if data.Cons? {
      LastIn(data);
    }
  }

  /** The chunks with data at the start of a list, and what follows them. */
  ghost function Full(cs: Cells): Cells {
    if cs.Nil? || cs.data == [] then Nil else Cons(cs.p, cs.data, Full(cs.tail))
  }

  ghost function Victims(cs: Cells): Cells {
    if cs.Nil? || cs.data == [] then cs else Victims(cs.tail)
  }

  lemma {:induction false} FullVictims(cs: Cells)
    ensures Cat(Full(cs), Victims(cs)) == cs && AllData(Full(cs))
    ensures AllEmpty(cs) ==> Full(cs) == Nil && Victims(cs) == cs
    ensures Victims(cs).Cons? ==> Victims(cs).data == []
    ensures AllEmpty(Victims(cs)) ==> Flat(Full(cs)) == Flat(cs)
  {
    if cs.Cons? && cs.data != [] {
      FullVictims(cs.tail);
    } else {
      if AllEmpty(cs) {
        FlatEmpty(cs);
      }
    }
  }

  /** The link behind the chunks a. */
  ghost function SlotAfter(buf: EvBuffer, a: Cells): Slot {
    if a.Nil? then FirstOf(buf) else NextOf(LastOf(a))
  }

  /** What a loop sees behind the chunks a. */
  lemma AtLink(mem: Memory, p: Ptr, a: Cells, b: Cells)
    requires Seg(mem, p, Cat(a, b), Null)
    ensures a.Nil? ==> p == Head(b, Null)
    ensures a.Cons? ==> LastOf(a) in mem && mem[LastOf(a)].next == Head(b, Null)
    ensures b.Cons? ==> b.p in mem && b.p != Null && mem[b.p].off == |b.data| && mem[b.p].next == Head(b.tail, Null)
    ensures b.Cons? ==> Cat(a, b) == Cat(Cat(a, Cons(b.p, b.data, Nil)), b.tail)
    ensures b.Cons? ==> LastOf(Cat(a, Cons(b.p, b.data, Nil))) == b.p
  {
    SegCat(mem, p, a, b, Null);
    LwdTarget(mem, p, a, Head(b, Null));
    if b.Cons? {
      CatAssoc(a, Cons(b.p, b.data, Nil), b.tail);
      CatParts(a, Cons(b.p, b.data, Nil));
    }
  }

  lemma {:induction false} FullBehind(a: Cells, b: Cells)
    requires AllData(a)
    ensures Full(Cat(a, b)) == Cat(a, Full(b)) && Victims(Cat(a, b)) == Victims(b)
  {
    if a.Cons? {
      FullBehind(a.tail, b);
    }
  }

  lemma {:induction false} LinkSplit(data: Cells) returns (a: Cells, b: Cells)
    ensures data == Cat(a, b) && (b.Nil? <==> data.Nil?)
    ensures LwdOf(data) == if a.Nil? then First else Next(LastOf(a))
  {
    if data.Nil? || data.tail.Nil? {
      a, b := Nil, data;
    } else {
      var a1;
      a1, b := LinkSplit(data.tail);
      LwdFirst(data.tail);
      a := Cons(data.p, data.data, a1);
    }
  }

  /** The chunks up to where the link leads. */
  lemma LinkLeads(mem: Memory, p: Ptr, last: Ptr, lwd: Link, data: Cells, rest: Cells) returns (a: Cells, b: Cells)
    requires Listed(mem, p, last, lwd, data, rest)
    ensures Cat(data, rest) == Cat(a, b) && lwd == if a.Nil? then First else Next(LastOf(a))
    ensures Cat(a, Full(b)) == Cat(data, Full(rest)) && Victims(b) == Victims(rest)
    ensures b.Nil? <==> data.Nil? && rest.Nil?
  {
    var d;
    a, d := LinkSplit(data);
    CatAssoc(a, d, rest);
    CatAssoc(a, d, Full(rest));
    CatParts(a, d);
    CatParts(d, rest);
    FullBehind(d, rest);
    b := Cat(d, rest);
  }

  /** The link to the first empty chunk: where the loops of
      evbuffer_free_trailing_empty_chains and evbuffer_chain_insert stop. */
  method FirstVictim(buf: EvBuffer) returns (ch: Slot)
    requires buf.Behind()
    ensures ch == SlotAfter(buf, Cat(buf.data, Full(buf.spare)))
    ensures ch.NextOf? ==> ch.chain in buf.heap.mem
    ensures buf.Deref(ch) == Head(Victims(buf.spare), Null)
  {
    ghost var a, b := LinkLeads(buf.heap.mem, buf.first, buf.last, buf.Lwd(), buf.data, buf.spare);
    ch := buf.lastWithDatap;
    AtLink(buf.heap.mem, buf.first, a, b);
    while buf.Deref(ch) != Null && buf.heap.mem[buf.Deref(ch)].off != 0
      invariant ch == SlotAfter(buf, a) && Cat(buf.data, buf.spare) == Cat(a, b)
      invariant Cat(a, Full(b)) == Cat(buf.data, Full(buf.spare)) && Victims(b) == Victims(buf.spare)
      invariant ch.NextOf? ==> ch.chain in buf.heap.mem
      invariant buf.Deref(ch) == Head(b, Null)
      invariant b.Cons? ==> b.p in buf.heap.mem && b.p != Null && buf.heap.mem[b.p].off == |b.data|
      decreases b
    {
      AtLink(buf.heap.mem, buf.first, a, b);
      CatAssoc(a, Cons(b.p, b.data, Nil), Full(b.tail));
      ch := NextOf(buf.Deref(ch));
      a, b := Cat(a, Cons(b.p, b.data, Nil)), b.tail;
      AtLink(buf.heap.mem, buf.first, a, b);
    }
    CatNil(a);
  }

  /** The memory once the chunks `spare` are freed and the last chunk of `data`,
      if any, links to q. */
  ghost function Relinked(mem: Memory, data: Cells, spare: Cells, q: Ptr): Memory
    requires data.Cons? ==> LastOf(data) in mem
  {
    var mem1 := mem - Ptrs(spare);
    if data.Nil? then mem1 else mem1[LastOf(data) := mem[LastOf(data)].(next := q)]
  }

  /** A list whose tail is replaced by other chunks. */
  lemma NewTail(mem: Memory, p: Ptr, data: Cells, spare: Cells, tail: Cells, q: Ptr)
    requires Seg(mem, p, Cat(data, spare), Null) && NoDup(Cat(data, spare))
    requires Seg(mem, Head(tail, q), tail, q) && NoDup(tail) && Ptrs(tail) !! Ptrs(Cat(data, spare))
    ensures data.Cons? ==> LastOf(data) in mem
    ensures var mem' := Relinked(mem, data, spare, Head(tail, q));
      && Seg(mem', if data.Nil? then Head(tail, q) else p, Cat(data, tail), q)
      && Swaps(mem, Ptrs(Cat(data, spare)) + Ptrs(tail), mem', Ptrs(Cat(data, tail)))
    ensures NoDup(Cat(data, tail))
  {
    var mem1 := mem - Ptrs(spare);
    SegCat(mem, p, data, spare, Null);
    CatParts(data, spare);
    CatParts(data, tail);
    SegFrame(mem, mem1, Head(tail, q), tail, q);
    var own, own' := Ptrs(Cat(data, spare)) + Ptrs(tail), Ptrs(Cat(data, tail));
    assert own' + Ptrs(spare) == own;
    if data.Cons? {
      LastIn(data);
      SegFrame(mem, mem1, p, data, Head(spare, Null));
      SegAttach(mem1, p, data, Head(spare, Null), tail, q);
      SwapsFreed(mem, Ptrs(spare), own', mem1[LastOf(data) := mem1[LastOf(data)].(next := Head(tail, q))]);
      hide Seg, NoDup, Ptrs;
    } else {
      SwapsFreed(mem, Ptrs(spare), own', mem1);
    }
  }

  lemma SwapsFreed(mem: Memory, freed: set<Ptr>, own: set<Ptr>, mem': Memory)
    requires mem' - own == mem - freed - own
    ensures Swaps(mem, own + freed, mem', own)
  {
  }

  /** evbuffer_chains_all_empty */
  method ChainsAllEmpty(heap: Heap, chain: Ptr, ghost cs: Cells) returns (empty: bool)
    requires Seg(heap.mem, chain, cs, Null)
    ensures empty <==> AllEmpty(cs)
  {
    var c := chain;
    ghost var rest := cs;
    while c != Null
      invariant Seg(heap.mem, c, rest, Null) && (AllEmpty(cs) <==> AllEmpty(rest))
      decreases rest
    {
      if heap.mem[c].off != 0 {
        return false;
      }
      c := heap.mem[c].next;
      rest := rest.tail;
    }
    empty := true;
  }

  /** The pointer surgery of evbuffer_chain_insert: the chunk becomes the last
      one, and the chunks from the first empty one on are freed; false if the
      assertion that they are all empty fails. */
  method LinkTail(buf: EvBuffer, chain: Ptr) returns (ok: bool)
    requires buf.Behind() && chain !in buf.Own()
    requires chain != Null && chain in buf.heap.mem
    modifies buf`first, buf`last, buf`lastWithDatap, buf.heap
    ensures ok <==> AllEmpty(Victims(buf.spare))
    ensures ok ==> var full, victims := Cat(buf.data, Full(buf.spare)), Victims(buf.spare);
      && buf.last == chain && chain in buf.heap.mem && buf.heap.mem[chain] == old(buf.heap.mem[chain])
      && buf.first == (if full.Nil? then chain else old(buf.first))
      && (full.Cons? ==> LastOf(full) in old(buf.heap.mem))
      && buf.heap.mem == Relinked(old(buf.heap.mem), full, victims, chain)
      && buf.lastWithDatap == if full.Cons? && victims.Nil? && old(buf.heap.mem[chain].off) != 0
                              then NextOf(LastOf(full)) else old(buf.lastWithDatap)
  {
    var heap := buf.heap;
    ghost var full, victims := Cat(buf.data, Full(buf.spare)), Victims(buf.spare);
    TailFacts(heap.mem, buf.first, buf.last, buf.Lwd(), buf.data, buf.spare);
    if buf.Deref(buf.lastWithDatap) == Null {
      buf.first, buf.last := chain, chain;
    } else {
      var ch := FirstVictim(buf);
      if buf.Deref(ch) == Null {
        heap.mem := heap.mem[buf.last := heap.mem[buf.last].(next := chain)];
        if heap.mem[chain].off != 0 {
          buf.lastWithDatap := NextOf(buf.last);
        }
      } else {
        ok := ChainsAllEmpty(heap, buf.Deref(ch), victims);
        if !ok {
          return;
        }
        FreeAllChains(heap, buf.Deref(ch), victims);
        buf.Store(ch, chain);
      }
      buf.last := chain;
    }
    ok := true;
  }

  /** What evbuffer_chain_insert can reach of a buffer. */
  lemma TailFacts(mem: Memory, p: Ptr, last: Ptr, lwd: Link, data: Cells, rest: Cells)
    requires Listed(mem, p, last, lwd, data, rest)
    ensures var full, victims := Cat(data, Full(rest)), Victims(rest);
      && Cat(full, victims) == Cat(data, rest) && AllData(full)
      && Seg(mem, p, full, Head(victims, Null)) && Seg(mem, Head(victims, Null), victims, Null)
      && NoDup(victims) && Ptrs(victims) <= Ptrs(Cat(data, rest))
      && (full.Cons? ==> LastOf(full) in mem && LastOf(full) !in Ptrs(victims) && mem[LastOf(full)].next == Head(victims, Null))
      && (full.Cons? ==> LastOf(full) in Ptrs(Cat(data, rest)))
      && (full.Nil? ==> p == Head(victims, Null))
      && (victims.Nil? ==> last == LastOf(full) && mem - Ptrs(victims) == mem)
      && (victims.Cons? ==> victims.p != Null && victims.data == [])
      && (full.Cons? && victims.Nil? ==> data.Cons? || rest.Cons?)
      && Ptrs(Cat(data, rest)) == Ptrs(full) + Ptrs(victims)
    ensures lwd.Next? ==> lwd.chain in mem
    ensures (if lwd.First? then p else if lwd.chain in mem then mem[lwd.chain].next else Null) == Null <==>
            data.Nil? && rest.Nil?
  {
    var full, victims := Cat(data, Full(rest)), Victims(rest);
    FullVictims(rest);
    CatAssoc(data, Full(rest), victims);
    CatParts(data, Full(rest));
    CatParts(full, victims);
    SegCat(mem, p, full, victims, Null);
    LwdTarget(mem, p, full, Head(victims, Null));
    if full.Cons? {
      LastIn(full);
    }
    var a, b := LinkLeads(mem, p, last, lwd, data, rest);
    AtLink(mem, p, a, b);
  }

  lemma {:induction false} LwdSnoc(data: Cells, p: Ptr, d: seq<byte>)
    ensures LwdOf(Cat(data, Cons(p, d, Nil))) == if data.Nil? then First else Next(LastOf(data))
  {
    if data.Cons? {
      LwdSnoc(data.tail, p, d);
    }
  }

  /** The lists once a chunk that holds d is inserted: the link only knows of it
      if nothing was replaced. */
  ghost function Inserted(data: Cells, rest: Cells, chain: Ptr, d: seq<byte>): (Cells, Cells) {
    var full, c := Cat(data, Full(rest)), Cons(chain, d, Nil);
    if d != [] && (full.Nil? || Victims(rest).Nil?) then (Cat(full, c), Nil) else (data, Cat(Full(rest), c))
  }

  lemma InsertedListed(mem: Memory, p: Ptr, last: Ptr, lwd: Link, data: Cells, rest: Cells, chain: Ptr, d: seq<byte>)
    requires Listed(mem, p, last, lwd, data, rest) && AllEmpty(Victims(rest))
    requires chain !in Ptrs(Cat(data, rest)) && chain != Null && chain in mem
    requires mem[chain].next == Null && Reads(mem[chain], d)
    ensures var full, victims := Cat(data, Full(rest)), Victims(rest);
      var (data', rest') := Inserted(data, rest, chain, d);
      && (full.Cons? ==> LastOf(full) in mem)
      && Listed(Relinked(mem, full, victims, chain), if full.Nil? then chain else p, chain,
                if full.Cons? && victims.Nil? && d != [] then Next(LastOf(full)) else lwd, data', rest')
      && Swaps(mem, Ptrs(Cat(data, rest)) + {chain}, Relinked(mem, full, victims, chain), Ptrs(Cat(data', rest')))
      && Flat(data') + Flat(rest') == Flat(data) + Flat(rest) + d
  {
    var full, victims, c := Cat(data, Full(rest)), Victims(rest), Cons(chain, d, Nil);
    TailFacts(mem, p, last, lwd, data, rest);
    NewTail(mem, p, full, victims, c, Null);
    InsertedCells(data, rest, chain, d);
    LwdSnoc(full, chain, d);
  }

  lemma InsertedCells(data: Cells, rest: Cells, chain: Ptr, d: seq<byte>)
    requires AllData(data) && AllEmpty(Victims(rest))
    ensures var (data', rest') := Inserted(data, rest, chain, d);
      && Cat(data', rest') == Cat(Cat(data, Full(rest)), Cons(chain, d, Nil)) && AllData(data')
      && Flat(data') + Flat(rest') == Flat(data) + Flat(rest) + d
    ensures LastOf(Cat(Cat(data, Full(rest)), Cons(chain, d, Nil))) == chain
  {
    var full, c := Cat(data, Full(rest)), Cons(chain, d, Nil);
    FullVictims(rest);
    CatAssoc(data, Full(rest), c);
    CatParts(data, Full(rest));
    CatParts(Full(rest), c);
    CatParts(full, c);
    CatNil(Cat(full, c));
    Assoc(Flat(data), Flat(rest), d);
    assert Flat(c) == d;
  }

  /** evbuffer_chain_insert, for a list whose link may be behind: false if the
      assertion that what it replaces is empty fails. It does not move the link
      past chunks that it replaces. */
  method ChainInsert(buf: EvBuffer, chain: Ptr, ghost d: seq<byte>) returns (ok: bool)
    requires buf.Behind() && chain !in buf.Own()
    requires chain != Null && chain in buf.heap.mem
    requires buf.heap.mem[chain].next == Null && Reads(buf.heap.mem[chain], d)
    modifies buf`first, buf`last, buf`lastWithDatap, buf`totalLen, buf`data, buf`spare, buf.heap
    ensures ok <==> AllEmpty(Victims(old(buf.spare)))
    ensures ok ==> buf.Behind() && (buf.data, buf.spare) == Inserted(old(buf.data), old(buf.spare), chain, d)
    ensures ok ==> buf.totalLen == old(buf.totalLen) + |d|
    ensures ok ==> Flat(buf.data) + Flat(buf.spare) == Flat(old(buf.data)) + Flat(old(buf.spare)) + d
    ensures ok ==> Swaps(old(buf.heap.mem), old(buf.Own()) + {chain}, buf.heap.mem, buf.Own())
    ensures ok ==> chain in buf.heap.mem && buf.heap.mem[chain] == old(buf.heap.mem[chain])
    ensures AllEmpty(old(buf.spare)) ==> ok
    ensures AllEmpty(old(buf.spare)) ==>
      (Intact(buf.heap.mem, buf.first, buf.last, buf.Lwd()) <==> d == [] || old(buf.data).Nil? || old(buf.spare).Nil?)
  {
    if AllEmpty(buf.spare) {
      InsertedValid(buf.data, buf.spare, chain, d);
    }
    if AllEmpty(Victims(buf.spare)) {
      InsertedListed(buf.heap.mem, buf.first, buf.last, buf.Lwd(), buf.data, buf.spare, chain, d);
    }
    ok := LinkTail(buf, chain);
    if ok {
      buf.totalLen := buf.totalLen + buf.heap.mem[chain].off;
      ghost var next := Inserted(buf.data, buf.spare, chain, d);
      buf.data, buf.spare := next.0, next.1;
      IntactIff(buf.heap.mem, buf.first, buf.last, buf.Lwd(), buf.data, buf.spare);
    }
  }

  /** Inserting an empty chunk, or one behind a list that ends with data. */
  lemma InsertedValid(data: Cells, spare: Cells, chain: Ptr, d: seq<byte>)
    requires AllEmpty(spare)
    ensures AllEmpty(Victims(spare))
    ensures d == [] ==> Inserted(data, spare, chain, d) == (data, Cons(chain, [], Nil))
    ensures d != [] && (data.Nil? || spare.Nil?) ==>
      Inserted(data, spare, chain, d) == (Cat(data, Cons(chain, d, Nil)), Nil)
    ensures var (data', rest') := Inserted(data, spare, chain, d);
      Known(data', rest') <==> d == [] || data.Nil? || spare.Nil?
  {
    FullVictims(spare);
    CatNil(data);
  }

  /** What the link does not lead to is empty, or is the first chunk alone. */
  ghost predicate Known(data: Cells, rest: Cells) {
    AllEmpty(rest) || (data.Nil? && rest.data != [] && AllEmpty(rest.tail))
  }

  /** When a list whose link may be behind is as it should be. */
  lemma IntactIff(mem: Memory, first: Ptr, last: Ptr, lwd: Link, data: Cells, rest: Cells)
    requires Listed(mem, first, last, lwd, data, rest)
    ensures Intact(mem, first, last, lwd) <==> Known(data, rest)
  {
    if AllEmpty(rest) {
      assert Layout(mem, first, last, lwd, data, rest);
    } else if data.Nil? && rest.data != [] && AllEmpty(rest.tail) {
      assert Cat(Cons(rest.p, rest.data, Nil), rest.tail) == rest by {
        assert Cat(Nil, rest.tail) == rest.tail;
      }
      assert Layout(mem, first, last, lwd, Cons(rest.p, rest.data, Nil), rest.tail);
    } else if Intact(mem, first, last, lwd) {
      var data', spare' :| Layout(mem, first, last, lwd, data', spare');
      SegUnique(mem, first, Cat(data', spare'), Cat(data, rest));
      LinkKnows(data, rest, data', spare');
    }
  }

  lemma {:induction false} LwdFirst(cs: Cells)
    ensures LwdOf(cs).First? <==> cs.Nil? || cs.tail.Nil?
    ensures LwdOf(cs).Next? ==> LwdOf(cs).chain in Ptrs(cs)
  {
    if cs.Cons? {
      LwdFirst(cs.tail);
    }
  }

  /** The link tells where the data ends, but for a first chunk. */
  lemma {:induction false} LinkKnows(data: Cells, rest: Cells, data': Cells, spare': Cells)
    requires NoDup(Cat(data, rest)) && AllData(data) && AllData(data') && AllEmpty(spare')
    requires Cat(data, rest) == Cat(data', spare') && LwdOf(data) == LwdOf(data')
    ensures Known(data, rest)
  {
    LwdFirst(data);
    LwdFirst(data');
    if data.Cons? && data.tail.Cons? {
      CatParts(data.tail, rest);
      CatParts(data'.tail, spare');
      LwdFirst(data.tail);
      LwdFirst(data'.tail);
      if data.tail.tail.Cons? && data'.tail.tail.Cons? {
        LinkKnows(data.tail, rest, data'.tail, spare');
      }
    }
  }
}
