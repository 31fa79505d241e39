/** Where the queue operations and the read operations do not mix: a buffer with
    spare chunks behind its data, as expanding leaves it, is not one that every
    operation can put data into. Concrete buffers for each way to fail. */
module EvMixed {
  import opened Segments
  import opened EvBuffers
  import opened EvQueue
  import opened EvSplice
  import opened EvExpand
  import EvSearch
  import opened EvRuns

  /** The memory of the smallest chunk that evbuffer_chain_new makes. */
  const ROOM := MIN_BUFFER_SIZE - EVBUFFER_CHAIN_SIZE

  function Zeros(): seq<byte> {
    seq(ROOM, _ => 0)
  }

  /** A full chunk, and n empty ones behind it. */
  function FullAndSpare(n: nat): Memory
    requires 1 <= n <= 2
  {
    var last := Chain(Null, 0, 0, Zeros());
    if n == 1 then map[Addr(0) := Chain(Addr(1), 0, ROOM, Zeros()), Addr(1) := last]
    else map[Addr(0) := Chain(Addr(1), 0, ROOM, Zeros()), Addr(1) := Chain(Addr(2), 0, 0, Zeros()), Addr(2) := last]
  }

  function OneSpare(): Cells {
    Cons(Addr(1), [], Nil)
  }

  function TwoSpare(): Cells {
    Cons(Addr(1), [], Cons(Addr(2), [], Nil))
  }

  lemma FullAndSpareLayout(n: nat, spare: Cells)
    requires (n == 1 && spare == OneSpare()) || (n == 2 && spare == TwoSpare())
    ensures Layout(FullAndSpare(n), Addr(0), Addr(n), First, Cons(Addr(0), Zeros(), Nil), spare)
  {
    var mem, data := FullAndSpare(n), Cons(Addr(0), Zeros(), Nil);
    assert Cat(data, spare) == Cons(Addr(0), Zeros(), spare) by {
      assert Cat(Nil, spare) == spare;
    }
    assert Reads(mem[Addr(0)], Zeros()) && Reads(mem[Addr(n)], []) && Reads(mem[Addr(1)], []);
    assert Seg(mem, Addr(n), Cons(Addr(n), [], Nil), Null);
    assert Seg(mem, Addr(1), spare, Null);
  }

  /** Two empty chunks; a zero-length evbuffer_prepend made the first one all
      misalignment. */
  function Misaligned(): Memory {
    map[Addr(0) := Chain(Addr(1), ROOM, 0, Zeros()), Addr(1) := Chain(Null, 0, 0, Zeros())]
  }

  lemma MisalignedLayout()
    ensures Layout(Misaligned(), Addr(0), Addr(1), First, Nil, Cons(Addr(0), [], OneSpare()))
  {
    var mem := Misaligned();
    assert Reads(mem[Addr(0)], []) && Reads(mem[Addr(1)], []);
    assert Seg(mem, Addr(1), OneSpare(), Null);
  }

  ghost predicate Holds(buf: EvBuffer, mem: Memory, data: Cells, spare: Cells)
    reads buf, buf.heap
  {
    buf.Valid() && buf.Settled() && buf.heap.mem == mem && buf.data == data && buf.spare == spare
  }

  /** One byte that fits into the empty chunk leaves the link behind. */
  method AddAfterExpand(buf: EvBuffer) returns (aborted: bool)
    requires Holds(buf, FullAndSpare(1), Cons(Addr(0), Zeros(), Nil), OneSpare())
    modifies buf, buf.heap
    ensures !aborted && buf.Bytes() == old(buf.Bytes()) + [9]
    ensures !Intact(buf.heap.mem, buf.first, buf.last, buf.Lwd())
  {
    aborted := Add(buf, [9]);
  }

  /** With two empty chunks behind the data, as expanding over three chunks leaves
      them, one byte more than a chunk holds makes evbuffer_add abort. */
  method AddWithTwoSpare(buf: EvBuffer) returns (aborted: bool)
    requires Holds(buf, FullAndSpare(2), Cons(Addr(0), Zeros(), Nil), TwoSpare())
    modifies buf, buf.heap
    ensures aborted
  {
    aborted := Add(buf, Zeros() + [9]);
  }

  /** One byte in front of a full chunk: the callbacks are told nothing. */
  method PrependToFull(buf: EvBuffer)
    requires Holds(buf, FullAndSpare(1), Cons(Addr(0), Zeros(), Nil), OneSpare()) && buf.hasCallbacks
    modifies buf, buf.heap
    ensures buf.Bytes() == [9] + old(buf.Bytes()) && buf.reports == old(buf.reports)
    ensures old(Balanced(buf)) ==> !Balanced(buf)
  {
    assert buf.first == Addr(0) by {
      assert Cat(buf.data, buf.spare).p == Addr(0);
    }
    if Balanced(buf) {
      PrependLedger(buf.reports, buf.totalLen, 1, 0);
    }
    Prepend(buf, [9]);
  }

  /** evbuffer_expand_singlechain skips the chunk that bytes go to next. */
  method ExpandSkipsChunk(buf: EvBuffer) returns (result: Ptr)
    requires Holds(buf, Misaligned(), Nil, Cons(Addr(0), [], OneSpare()))
    modifies buf, buf.heap
    ensures result == Addr(1) && !InPlace(result, buf.data, buf.spare)
  {
    result := ExpandSinglechain(buf, 1);
  }

  // ----- two buffers

  /** The bytes of another chunk, a larger one, which is full. */
  function Other(): seq<byte> {
    seq(2 * MIN_BUFFER_SIZE - EVBUFFER_CHAIN_SIZE, _ => 1)
  }

  function OtherCell(): Cells {
    Cons(Addr(5), Other(), Nil)
  }

  function Both(n: nat): Memory
    requires 1 <= n <= 2
  {
    FullAndSpare(n)[Addr(5) := Chain(Null, 0, |Other()|, Other())]
  }

  lemma BothLayout(n: nat, spare: Cells)
    requires (n == 1 && spare == OneSpare()) || (n == 2 && spare == TwoSpare())
    ensures Layout(Both(n), Addr(0), Addr(n), First, Cons(Addr(0), Zeros(), Nil), spare)
    ensures Layout(Both(n), Addr(5), Addr(5), First, OtherCell(), Nil)
    ensures Ptrs(Cat(Cons(Addr(0), Zeros(), Nil), spare)) !! Ptrs(Cat(OtherCell(), Nil))
  {
    var mem := FullAndSpare(n);
    FullAndSpareLayout(n, spare);
    CatParts(Cons(Addr(0), Zeros(), Nil), spare);
    CatNil(OtherCell());
    SegFrame(mem, Both(n), Addr(0), Cat(Cons(Addr(0), Zeros(), Nil), spare), Null);
    assert Reads(Both(n)[Addr(5)], Other());
    assert Seg(Both(n), Addr(5), OtherCell(), Null);
  }

  /** One buffer of a full chunk and empty ones, and one of another full chunk. */
  ghost predicate HoldBoth(spare: Cells, a: EvBuffer, b: EvBuffer, n: nat)
    requires 1 <= n <= 2
    reads a, b, a.heap, b.heap
  {
    && Apart(a, b) && Holds(a, Both(n), Cons(Addr(0), Zeros(), Nil), spare) && Holds(b, Both(n), OtherCell(), Nil)
  }

  /** evbuffer_add_buffer puts an empty chunk between data. */
  method AddBufferBreaks(outbuf: EvBuffer, inbuf: EvBuffer)
    requires HoldBoth(OneSpare(), outbuf, inbuf, 1)
    modifies outbuf, inbuf, outbuf.heap
    ensures outbuf.Bytes() == old(outbuf.Bytes() + inbuf.Bytes())
    ensures !Intact(outbuf.heap.mem, outbuf.first, outbuf.last, outbuf.Lwd())
  {
    AddBuffer(outbuf, inbuf);
  }

  /** evbuffer_prepend_buffer does so with the empty chunks of the other one. */
  method PrependBufferBreaks(outbuf: EvBuffer, inbuf: EvBuffer)
    requires HoldBoth(OneSpare(), inbuf, outbuf, 1)
    modifies outbuf, inbuf, outbuf.heap
    ensures outbuf.Bytes() == old(inbuf.Bytes() + outbuf.Bytes())
    ensures !Intact(outbuf.heap.mem, outbuf.first, outbuf.last, outbuf.Lwd())
  {
    PrependBuffer(outbuf, inbuf);
  }

  /** evbuffer_remove_buffer of one byte leaves the link of dst behind. */
  method RemoveBufferBreaks(src: EvBuffer, dst: EvBuffer) returns (result: nat, aborted: bool)
    requires HoldBoth(OneSpare(), dst, src, 1)
    modifies src, dst, dst.heap
    ensures !aborted && dst.Bytes() == old(dst.Bytes() + src.Bytes()[..1])
    ensures !Intact(dst.heap.mem, dst.first, dst.last, dst.Lwd())
  {
    result, aborted := RemoveBuffer(src, dst, 1);
  }

  /** evbuffer_remove_buffer of more than a chunk holds aborts with two empty chunks
      in dst. */
  method RemoveBufferAborts(src: EvBuffer, dst: EvBuffer) returns (result: nat, aborted: bool)
    requires HoldBoth(TwoSpare(), dst, src, 2)
    modifies src, dst, dst.heap
    ensures aborted
  {
    result, aborted := RemoveBuffer(src, dst, ROOM + 1);
  }

  // ----- a run of CR and LF up to the end

  /** The pointer that evbuffer_strspn leaves at the end of a chunk of line feeds
      cannot be gone on from. */
  method StrspnAtEnd(heap: Heap) returns (count: int, ptr: EvSearch.EvPtr)
    requires heap.mem == map[Addr(0) := Chain(Null, 0, ROOM, seq(ROOM, _ => EvSearch.LF))]
    ensures count == ROOM == ptr.pos && !EvSearch.Usable(heap.mem, seq(ROOM, _ => EvSearch.LF), ptr)
  {
    ghost var t, at := seq(ROOM, _ => EvSearch.LF), Cons(Addr(0), seq(ROOM, _ => EvSearch.LF), Nil);
    assert Reads(heap.mem[Addr(0)], t) && Seg(heap.mem, Addr(0), at, Null);
    count, ptr := EvSearch.Strspn(heap, EvSearch.EvPtr(0, Addr(0), 0), EvSearch.CRLF, t, at);
  }
}
