/** Searching an evbuffer's bytes across its chunks, and reading lines. */
module EvSearch {
  import opened Segments
  import opened EvBuffers
  import opened EvQueue

  const CR: byte := 13
  const LF: byte := 10
  const CHUNK_SZ := 128
  const EOL_CHARS: set<byte> := {CR, LF}

  /** struct evbuffer_ptr: a position, its chunk and where it is in the chunk's
      window. */
  datatype EvPtr = EvPtr(pos: int, chain: Ptr, posInChain: nat)

  /** From position base on, t is what the chunks cs hold. */
  ghost predicate Rest(t: seq<byte>, base: int, cs: Cells)
    decreases cs
  {
    match cs
    case Nil => base == |t|
    case Cons(_, data, tail) =>
      0 <= base && base + |data| <= |t| && t[base..base + |data|] == data && Rest(t, base + |data|, tail)
  }

  /** it is the position of a byte of t, or its end; the chunks from there on are
      `at`. */
  ghost predicate Here(mem: Memory, t: seq<byte>, it: EvPtr, at: Cells) {
    && Seg(mem, it.chain, at, Null)
    && it.posInChain <= (if at.Nil? then 0 else |at.data|)
    && it.posInChain <= it.pos && Rest(t, it.pos - it.posInChain, at)
  }

  /** The chunk that it is in, and what comes next. */
  lemma Chunk(mem: Memory, t: seq<byte>, it: EvPtr, at: Cells)
    requires Here(mem, t, it, at)
    ensures it.chain == Null <==> at.Nil?
    ensures at.Nil? ==> it.pos == |t|
    ensures at.Cons? ==>
      && it.chain in mem && Reads(mem[it.chain], at.data) && mem[it.chain].off == |at.data|
      && var c := mem[it.chain];
        && it.pos + (c.off - it.posInChain) <= |t|
        && Here(mem, t, EvPtr(it.pos + (c.off - it.posInChain), c.next, 0), at.tail)
  {
  }

  /** What is left of the chunk that it is in. */
  lemma ChunkBytes(mem: Memory, t: seq<byte>, it: EvPtr, at: Cells)
    requires Here(mem, t, it, at) && at.Cons?
    ensures var c := mem[it.chain];
      && it.pos + (c.off - it.posInChain) <= |t|
      && t[it.pos..it.pos + (c.off - it.posInChain)] == c.buffer[c.misalign + it.posInChain..c.misalign + c.off]
  {
    var c, base := mem[it.chain], it.pos - it.posInChain;
    assert t[it.pos..base + c.off] == t[base..base + c.off][it.posInChain..];
    assert c.buffer[c.misalign + it.posInChain..c.misalign + c.off] == c.buffer[c.misalign..c.misalign + c.off][it.posInChain..];
  }

  lemma {:induction false} RestOfFlat(pre: seq<byte>, cs: Cells)
    ensures Rest(pre + Flat(cs), |pre|, cs)
    decreases cs
  {
    if cs.Cons? {
      Assoc(pre, cs.data, Flat(cs.tail));
      RestOfFlat(pre + cs.data, cs.tail);
    }
  }

  /** The start of a buffer. */
  lemma Start(buf: EvBuffer)
    requires buf.Valid()
    ensures Here(buf.heap.mem, buf.Bytes(), EvPtr(0, buf.first, 0), Cat(buf.data, buf.spare))
  {
    CatParts(buf.data, buf.spare);
    FlatEmpty(buf.spare);
    RestOfFlat([], Cat(buf.data, buf.spare));
    assert [] + Flat(Cat(buf.data, buf.spare)) == buf.Bytes();
  }

  // ----- scanning for a byte

  /** No byte of t from lo to hi is one of `stop`. */
  ghost predicate Clear(stop: set<byte>, t: seq<byte>, lo: int, hi: int) {
    0 <= lo <= hi <= |t| && forall j :: lo <= j < hi ==> t[j] !in stop
  }

  /** memchr */
  method Memchr(s: seq<byte>, chr: byte) returns (at: int)
    ensures -1 <= at < |s|
    ensures Clear({chr}, s, 0, if at == -1 then |s| else at)
    ensures at >= 0 ==> s[at] == chr
  {
    at := 0;
    while at < |s|
      invariant Clear({chr}, s, 0, at)
    {
      if s[at] == chr {
        return;
      }
      at := at + 1;
    }
    at := -1;
  }

  /** find_eol_char: looks at CHUNK_SZ bytes at a time. */
  method FindEolChar(s: seq<byte>) returns (at: int)
    ensures -1 <= at < |s|
    ensures Clear(EOL_CHARS, s, 0, if at == -1 then |s| else at)
    ensures at >= 0 ==> s[at] in EOL_CHARS
  {
    var i := 0;
    while i < |s|
      invariant 0 <= i && Clear(EOL_CHARS, s, 0, if i <= |s| then i else |s|)
    {
      var chunk := if i + CHUNK_SZ < |s| then CHUNK_SZ else |s| - i;
      var w := s[i..i + chunk];
      var cr := Memchr(w, CR);
      var lf := Memchr(w, LF);
      assert forall j :: i <= j < i + chunk ==> s[j] == w[j - i];
      if cr >= 0 {
        if lf >= 0 && lf < cr {
          return i + lf;
        }
        return i + cr;
      } else if lf >= 0 {
        return i + lf;
      }
      i := i + CHUNK_SZ;
    }
    at := -1;
  }

  /** The first byte of t from position `from` on that is one of `stop`. */
  ghost predicate FirstOfThese(t: seq<byte>, from: int, stop: set<byte>, r: int) {
    && (r == -1 || (0 <= from <= r < |t| && t[r] in stop))
    && Clear(stop, t, from, if r == -1 then |t| else r)
  }

  /** Bytes seen in a window of t. */
  lemma ClearWindow(stop: set<byte>, t: seq<byte>, from: nat, pos: nat, w: seq<byte>, k: nat)
    requires Clear(stop, t, from, pos) && Clear(stop, w, 0, k)
    requires pos + |w| <= |t| && t[pos..pos + |w|] == w
    ensures Clear(stop, t, from, pos + k)
    ensures k < |w| ==> t[pos + k] == w[k]
  {
    forall j | from <= j < pos + k
      ensures t[j] !in stop
    {
      if j >= pos {
        assert t[j] == w[j - pos];
      }
    }
  }

  /** Found in the chunk that it is in, k bytes on. */
  lemma FoundAt(mem: Memory, t: seq<byte>, it: EvPtr, at: Cells, from: nat, stop: set<byte>, k: nat)
    requires Here(mem, t, it, at) && at.Cons? && k < mem[it.chain].off - it.posInChain
    requires Clear(stop, t, from, it.pos)
    requires var c := mem[it.chain];
      var w := c.buffer[c.misalign + it.posInChain..c.misalign + c.off];
      w[k] in stop && Clear(stop, w, 0, k)
    ensures FirstOfThese(t, from, stop, it.pos + k)
    ensures Here(mem, t, EvPtr(it.pos + k, it.chain, it.posInChain + k), at) && it.posInChain + k < |at.data|
  {
    Chunk(mem, t, it, at);
    ChunkBytes(mem, t, it, at);
    var c := mem[it.chain];
    ClearWindow(stop, t, from, it.pos, c.buffer[c.misalign + it.posInChain..c.misalign + c.off], k);
    assert it.pos + k - (it.posInChain + k) == it.pos - it.posInChain;
  }

  /** Not found in the chunk that it is in. */
  lemma NotInChunk(mem: Memory, t: seq<byte>, it: EvPtr, at: Cells, from: nat, stop: set<byte>)
    requires Here(mem, t, it, at) && at.Cons? && Clear(stop, t, from, it.pos)
    requires var c := mem[it.chain];
      Clear(stop, c.buffer[c.misalign + it.posInChain..c.misalign + c.off], 0, c.off - it.posInChain)
    ensures var c := mem[it.chain];
      && Clear(stop, t, from, it.pos + (c.off - it.posInChain))
      && Here(mem, t, EvPtr(it.pos + (c.off - it.posInChain), c.next, 0), at.tail)
      && (c.next == Null ==> it.pos + (c.off - it.posInChain) == |t|)
  {
    Chunk(mem, t, it, at);
    ChunkBytes(mem, t, it, at);
    var c := mem[it.chain];
    ClearWindow(stop, t, from, it.pos, c.buffer[c.misalign + it.posInChain..c.misalign + c.off], c.off - it.posInChain);
    Chunk(mem, t, EvPtr(it.pos + (c.off - it.posInChain), c.next, 0), at.tail);
  }

  /** evbuffer_strchr */
  method Strchr(heap: Heap, it: EvPtr, chr: byte, ghost t: seq<byte>, ghost at: Cells)
    returns (result: int, it': EvPtr, ghost at': Cells)
    requires Here(heap.mem, t, it, at)
    ensures FirstOfThese(t, it.pos, {chr}, result)
    ensures result >= 0 ==> it'.pos == result && Here(heap.mem, t, it', at')
  {
    var mem := heap.mem;
    it', at' := it, at;
    Chunk(mem, t, it', at');
    hide Here, Reads;
    while it'.chain != Null
      invariant Here(mem, t, it', at') && Clear({chr}, t, it.pos, it'.pos)
      invariant it'.chain == Null ==> it'.pos == |t|
      decreases at'
    {
      Chunk(mem, t, it', at');
      var c := mem[it'.chain];
      var k := Memchr(c.buffer[c.misalign + it'.posInChain..c.misalign + c.off], chr);
      if k >= 0 {
        FoundAt(mem, t, it', at', it.pos, {chr}, k);
        it' := EvPtr(it'.pos + k, it'.chain, it'.posInChain + k);
        return it'.pos, it', at';
      }
      NotInChunk(mem, t, it', at', it.pos, {chr});
      it', at' := EvPtr(it'.pos + (c.off - it'.posInChain), c.next, 0), at'.tail;
    }
    result := -1;
  }

  /** evbuffer_find_eol_char */
  method FindEol(heap: Heap, it: EvPtr, ghost t: seq<byte>, ghost at: Cells)
    returns (result: int, it': EvPtr, ghost at': Cells)
    requires Here(heap.mem, t, it, at)
    ensures FirstOfThese(t, it.pos, EOL_CHARS, result)
    ensures result >= 0 ==> it'.pos == result && Here(heap.mem, t, it', at') && at'.Cons? && it'.posInChain < |at'.data|
  {
    var mem := heap.mem;
    it', at' := it, at;
    Chunk(mem, t, it', at');
    hide Here, Reads;
    while it'.chain != Null
      invariant Here(mem, t, it', at') && Clear(EOL_CHARS, t, it.pos, it'.pos)
      invariant it'.chain == Null ==> it'.pos == |t|
      decreases at'
    {
      Chunk(mem, t, it', at');
      var c := mem[it'.chain];
      var k := FindEolChar(c.buffer[c.misalign + it'.posInChain..c.misalign + c.off]);
      if k >= 0 {
        FoundAt(mem, t, it', at', it.pos, EOL_CHARS, k);
        it' := EvPtr(it'.pos + k, it'.chain, it'.posInChain + k);
        return it'.pos, it', at';
      }
      NotInChunk(mem, t, it', at', it.pos, EOL_CHARS);
      it', at' := EvPtr(it'.pos + (c.off - it'.posInChain), c.next, 0), at'.tail;
    }
    result := -1;
  }

  // ----- the length of a run

  /** Every byte of t from lo to hi is one of chrset. */
  ghost predicate AllIn(chrset: seq<byte>, t: seq<byte>, lo: int, hi: int) {
    0 <= lo <= hi <= |t| && forall j :: lo <= j < hi ==> t[j] in chrset
  }

  /** The run of bytes in chrset that starts at pos has length n. */
  ghost predicate RunOf(t: seq<byte>, pos: int, chrset: seq<byte>, n: int) {
    AllIn(chrset, t, pos, pos + n) && (pos + n < |t| ==> t[pos + n] !in chrset)
  }

  method OneOf(chrset: seq<byte>, b: byte) returns (found: bool)
    ensures found <==> b in chrset
  {
    var p := 0;
    while p < |chrset|
      invariant p <= |chrset| && b !in chrset[..p]
    {
      if b == chrset[p] {
        return true;
      }
      p := p + 1;
    }
    found := false;
  }

  /** A step within a window. */
  lemma StepInChunk(mem: Memory, t: seq<byte>, it: EvPtr, at: Cells, from: nat, chrset: seq<byte>)
    requires Here(mem, t, it, at) && at.Cons? && AllIn(chrset, t, from, it.pos)
    requires it.posInChain < |at.data|
    ensures it.pos < |t| && t[it.pos] == mem[it.chain].buffer[mem[it.chain].misalign + it.posInChain]
    ensures Here(mem, t, EvPtr(it.pos + 1, it.chain, it.posInChain + 1), at)
    ensures t[it.pos] in chrset ==> AllIn(chrset, t, from, it.pos + 1)
  {
    Chunk(mem, t, it, at);
    ChunkBytes(mem, t, it, at);
    var c := mem[it.chain];
    assert c.buffer[c.misalign + it.posInChain..c.misalign + c.off][0] == t[it.pos..it.pos + (c.off - it.posInChain)][0];
  }

  /** The inner loop of evbuffer_strspn: over the window of one chunk. */
  method SpanChunk(heap: Heap, ptr: EvPtr, chrset: seq<byte>, ghost t: seq<byte>, ghost at: Cells, ghost from: nat)
    returns (stopped: bool, ptr': EvPtr)
    requires Here(heap.mem, t, ptr, at) && at.Cons? && AllIn(chrset, t, from, ptr.pos)
    ensures Here(heap.mem, t, ptr', at) && ptr'.chain == ptr.chain && AllIn(chrset, t, from, ptr'.pos)
    ensures if stopped then ptr'.pos < |t| && t[ptr'.pos] !in chrset else ptr'.posInChain == |at.data|
  {
    var c := heap.mem[ptr.chain];
    ptr' := ptr;
    while ptr'.posInChain < c.off
      invariant Here(heap.mem, t, ptr', at) && ptr'.chain == ptr.chain && AllIn(chrset, t, from, ptr'.pos)
      decreases c.off - ptr'.posInChain
    {
      StepInChunk(heap.mem, t, ptr', at, from, chrset);
      var found := OneOf(chrset, c.buffer[c.misalign + ptr'.posInChain]);
      if !found {
        return true, ptr';
      }
      ptr' := EvPtr(ptr'.pos + 1, ptr'.chain, ptr'.posInChain + 1);
    }
    stopped := false;
  }

  /** The pointer can be gone on from. */
  ghost predicate Usable(mem: Memory, t: seq<byte>, it: EvPtr) {
    exists at :: Here(mem, t, it, at)
  }

  /** Some byte from pos on is not one of chrset. */
  ghost predicate RunStops(t: seq<byte>, pos: int, chrset: seq<byte>) {
    exists q :: 0 <= pos <= q < |t| && t[q] !in chrset
  }

  lemma {:induction false} LastInMem(mem: Memory, p: Ptr, at: Cells)
    requires Seg(mem, p, at, Null)
    ensures at.Cons? ==> LastOf(at) in mem
    decreases at
  {
    if at.Cons? {
      LastInMem(mem, mem[p].next, at.tail);
    }
  }

  /** At the end of the bytes, the start of the last chunk is the right place only
      if that chunk is empty. */
  lemma EndUsable(mem: Memory, t: seq<byte>, p: Ptr, last: Cells)
    requires Seg(mem, p, last, Null) && last.Cons? && last.tail.Nil?
    ensures p in mem && (Usable(mem, t, EvPtr(|t|, p, 0)) <==> mem[p].off == 0)
  {
    var it := EvPtr(|t|, p, 0);
    if mem[p].off == 0 {
      assert Here(mem, t, it, last);
    }
    if Usable(mem, t, it) {
      var at :| Here(mem, t, it, at);
      SegUnique(mem, p, at, last);
    }
  }

  /** evbuffer_strspn. The pointer it leaves is not usable when all bytes up to the
      end are in the set, unless the last chunk is empty. */
  method Strspn(heap: Heap, ptr: EvPtr, chrset: seq<byte>, ghost t: seq<byte>, ghost at: Cells)
    returns (count: int, ptr': EvPtr)
    requires Here(heap.mem, t, ptr, at)
    ensures if ptr.chain == Null then count == -1 && ptr' == ptr else RunOf(t, ptr.pos, chrset, count)
    ensures ptr.chain != Null ==>
      at.Cons? && ptr'.pos == ptr.pos + count && ptr'.chain in heap.mem && LastOf(at) in heap.mem
    ensures ptr.chain != Null ==>
      (Usable(heap.mem, t, ptr') <==> RunStops(t, ptr.pos, chrset) || heap.mem[LastOf(at)].off == 0)
  {
    var it := ptr;
    ghost var at' := at;
    Chunk(heap.mem, t, ptr, at);
    LastInMem(heap.mem, ptr.chain, at);
    if ptr.chain == Null {
      return -1, ptr;
    }
    while true
      invariant at'.Cons? && Here(heap.mem, t, it, at') && AllIn(chrset, t, ptr.pos, it.pos)
      invariant LastOf(at') == LastOf(at)
      decreases at'
    {
      var stopped;
      stopped, it := SpanChunk(heap, it, chrset, t, at', ptr.pos);
      Chunk(heap.mem, t, it, at');
      if stopped {
        return it.pos - ptr.pos, it;
      }
      var next := heap.mem[it.chain].next;
      if next == Null {
        Chunk(heap.mem, t, EvPtr(it.pos, next, 0), at'.tail);
        EndUsable(heap.mem, t, it.chain, at');
        return it.pos - ptr.pos, EvPtr(it.pos, it.chain, 0);
      }
      it, at' := EvPtr(it.pos, next, 0), at'.tail;
      Chunk(heap.mem, t, it, at');
    }
  }

  // ----- positions

  datatype PtrHow = Set | Add

  lemma Ahead(mem: Memory, t: seq<byte>, it: EvPtr, at: Cells, k: nat)
    requires Here(mem, t, it, at) && at.Cons? && it.posInChain + k <= |at.data|
    ensures Here(mem, t, EvPtr(it.pos + k, it.chain, it.posInChain + k), at) && it.pos + k <= |t|
    ensures it.posInChain + k < |at.data| ==> it.pos + k < |t|
  {
    Chunk(mem, t, it, at);
    assert it.pos + k - (it.posInChain + k) == it.pos - it.posInChain;
  }

  /** The loop of evbuffer_ptr_set: `left` bytes on from it. */
  method Advance(heap: Heap, it0: EvPtr, left0: nat, ghost t: seq<byte>, ghost at0: Cells)
    returns (it: EvPtr, left: nat, ghost at: Cells)
    requires Here(heap.mem, t, it0, at0)
    ensures Here(heap.mem, t, it, at) && it.pos + left == it0.pos + left0
    ensures if at.Nil? then it.chain == Null && it.pos == |t| else it.chain != Null && it.posInChain + left < |at.data|
  {
    var mem := heap.mem;
    it, left, at := it0, left0, at0;
    Chunk(mem, t, it, at);
    while it.chain != Null && it.posInChain + left >= mem[it.chain].off
      invariant Here(mem, t, it, at) && it.pos + left == it0.pos + left0
      invariant it.chain != Null ==> at.Cons? && it.chain in mem && mem[it.chain].off == |at.data|
      invariant it.chain == Null ==> at.Nil? && it.pos == |t|
      decreases at
    {
      Chunk(mem, t, it, at);
      var c := mem[it.chain];
      left := left - (c.off - it.posInChain);
      it, at := EvPtr(it.pos + (c.off - it.posInChain), c.next, 0), at.tail;
      Chunk(mem, t, it, at);
    }
  }

  /** evbuffer_ptr_set: fails exactly when no byte has that position. */
  method PtrSet(buf: EvBuffer, pos: EvPtr, position: nat, how: PtrHow, ghost at0: Cells)
    returns (result: int, pos': EvPtr, ghost at: Cells)
    requires buf.Valid() && (how.Add? ==> Here(buf.heap.mem, buf.Bytes(), pos, at0))
    ensures var target := if how.Set? then position else pos.pos + position;
      if target < |buf.Bytes()| then result == 0 && pos'.pos == target
      else result == -1 && pos'.pos == -1 && pos'.chain == Null
    ensures result == 0 ==>
      Here(buf.heap.mem, buf.Bytes(), pos', at) && at.Cons? && pos'.posInChain < |at.data|
  {
    var it := pos;
    Start(buf);
    at := at0;
    match how {
      case Set =>
        it, at := EvPtr(0, buf.first, 0), Cat(buf.data, buf.spare);
      case Add =>
    }
    var left;
    it, left, at := Advance(buf.heap, it, position, buf.Bytes(), at);
    if it.chain != Null {
      Ahead(buf.heap.mem, buf.Bytes(), it, at, left);
      pos', result := EvPtr(it.pos + left, it.chain, it.posInChain + left), 0;
    } else {
      pos', result := EvPtr(-1, Null, it.posInChain), -1;
    }
  }

  // ----- comparing

  /** what is at position q of t. */
  ghost predicate Occurs(t: seq<byte>, what: seq<byte>, q: int) {
    0 <= q && q + |what| <= |t| && t[q..q + |what|] == what
  }

  /** The order of two strings of one length, by their first difference. */
  ghost function Order(a: seq<byte>, b: seq<byte>): int
    requires |a| == |b|
  {
    if a == [] then 0 else if a[0] < b[0] then -1 else if b[0] < a[0] then 1 else Order(a[1..], b[1..])
  }

  lemma {:induction false} OrderSame(a: seq<byte>, b: seq<byte>)
    requires |a| == |b|
    ensures Order(a, b) == 0 <==> a == b
  {
    if a != [] {
      OrderSame(a[1..], b[1..]);
      assert a == [a[0]] + a[1..] && b == [b[0]] + b[1..];
    }
  }

  /** The first difference decides. */
  lemma {:induction false} OrderAt(a: seq<byte>, b: seq<byte>, k: nat)
    requires |a| == |b| && k < |a| && a[..k] == b[..k] && a[k] != b[k]
    ensures Order(a, b) < 0 <==> a[k] < b[k]
    ensures Order(a, b) != 0
  {
    if k > 0 {
      assert a[0] == a[..k][0] == b[..k][0] == b[0];
      assert a[1..][..k - 1] == a[..k][1..] && b[1..][..k - 1] == b[..k][1..];
      OrderAt(a[1..], b[1..], k - 1);
    }
  }

  /** Comparing the first n bytes, and then the others. */
  lemma {:induction false} OrderSplit(a: seq<byte>, b: seq<byte>, n: nat)
    requires n <= |a| == |b|
    ensures Order(a, b) == if Order(a[..n], b[..n]) != 0 then Order(a[..n], b[..n]) else Order(a[n..], b[n..])
  {
    if n > 0 {
      OrderSplit(a[1..], b[1..], n - 1);
      assert a[..n][1..] == a[1..][..n - 1] && b[..n][1..] == b[1..][..n - 1];
      assert a[1..][n - 1..] == a[n..] && b[1..][n - 1..] == b[n..];
    }
  }

  /** memcmp */
  method Memcmp(a: seq<byte>, b: seq<byte>) returns (r: int)
    requires |a| == |b|
    ensures r == Order(a, b)
  {
    var i := 0;
    while i < |a|
      invariant i <= |a| && Order(a, b) == Order(a[i..], b[i..])
    {
      if a[i] != b[i] {
        return if a[i] < b[i] then -1 else 1;
      }
      assert a[i..][1..] == a[i + 1..] && b[i..][1..] == b[i + 1..];
      i := i + 1;
    }
    r := 0;
  }

  /** Comparing what is in one chunk. */
  lemma CompareChunk(mem: Memory, t: seq<byte>, it: EvPtr, at: Cells, rest: seq<byte>, n: nat)
    requires Here(mem, t, it, at) && at.Cons? && it.pos + |rest| <= |t|
    requires n == Min(|rest|, mem[it.chain].off - it.posInChain)
    ensures var c := mem[it.chain]; var w := c.buffer[c.misalign + it.posInChain..c.misalign + it.posInChain + n];
      && |w| == n
      && Order(t[it.pos..it.pos + |rest|], rest) ==
           if Order(w, rest[..n]) != 0 then Order(w, rest[..n]) else Order(t[it.pos + n..it.pos + |rest|], rest[n..])
  {
    ChunkWindow(mem, t, it, at, n);
    hide Order, Here, Reads;
    var u := t[it.pos..it.pos + |rest|];
    OrderSplit(u, rest, n);
    assert u[..n] == t[it.pos..it.pos + n];
    assert u[n..] == t[it.pos + n..it.pos + |rest|];
  }

  lemma ChunkWindow(mem: Memory, t: seq<byte>, it: EvPtr, at: Cells, n: nat)
    requires Here(mem, t, it, at) && at.Cons? && n <= mem[it.chain].off - it.posInChain
    ensures 0 <= it.pos && it.pos + n <= |t|
    ensures var c := mem[it.chain];
      && c.misalign + it.posInChain + n <= |c.buffer|
      && c.buffer[c.misalign + it.posInChain..c.misalign + it.posInChain + n] == t[it.pos..it.pos + n]
  {
    Chunk(mem, t, it, at);
    ChunkBytes(mem, t, it, at);
    var c := mem[it.chain];
    TakeOf(t, it.pos, c.off - it.posInChain, n);
    TakeOf(c.buffer, c.misalign + it.posInChain, c.off - it.posInChain, n);
  }

  lemma TakeOf(t: seq<byte>, at: nat, len: nat, n: nat)
    requires at + len <= |t| && n <= len
    ensures t[at..at + len][..n] == t[at..at + n]
  {
  }

  /** evbuffer_ptr_memcmp: less if there are not enough bytes. */
  method PtrMemcmp(buf: EvBuffer, pos: EvPtr, what: seq<byte>, ghost at0: Cells) returns (r: int)
    requires buf.Valid() && Here(buf.heap.mem, buf.Bytes(), pos, at0)
    ensures 0 <= pos.pos && r == if pos.pos + |what| > |buf.Bytes()| then -1
                                 else Order(buf.Bytes()[pos.pos..pos.pos + |what|], what)
    ensures r == 0 <==> Occurs(buf.Bytes(), what, pos.pos)
    ensures var t := buf.Bytes();
      pos.pos + |what| <= |t| ==>
        forall k :: 0 <= k < |what| && t[pos.pos..pos.pos + k] == what[..k] && t[pos.pos + k] != what[k] ==>
          (r < 0 <==> t[pos.pos + k] < what[k])
  {
    if pos.pos + |what| > buf.totalLen {
      return -1;
    }
    ghost var w := buf.Bytes()[pos.pos..pos.pos + |what|];
    forall k | 0 <= k < |what| && buf.Bytes()[pos.pos..pos.pos + k] == what[..k] && buf.Bytes()[pos.pos + k] != what[k]
      ensures Order(w, what) < 0 <==> buf.Bytes()[pos.pos + k] < what[k]
    {
      assert w[..k] == buf.Bytes()[pos.pos..pos.pos + k];
      OrderAt(w, what, k);
    }
    OrderSame(buf.Bytes()[pos.pos..pos.pos + |what|], what);
    r := CompareFrom(buf.heap, pos, what, buf.Bytes(), at0);
  }

  /** One round of the loop below. */
  method CompareInChunk(heap: Heap, it: EvPtr, rest: seq<byte>, ghost t: seq<byte>, ghost at: Cells)
    returns (r: int, n: nat)
    requires Here(heap.mem, t, it, at) && at.Cons? && it.pos + |rest| <= |t| && rest != []
    ensures it.chain in heap.mem && n <= |rest| && it.pos + n <= |t|
    ensures Order(t[it.pos..it.pos + |rest|], rest) ==
      if r != 0 then r else Order(t[it.pos + n..it.pos + |rest|], rest[n..])
    ensures n < |rest| ==> at.tail.Cons? && Here(heap.mem, t, EvPtr(it.pos + n, heap.mem[it.chain].next, 0), at.tail)
  {
    Chunk(heap.mem, t, it, at);
    var c := heap.mem[it.chain];
    n := if |rest| + it.posInChain > c.off then c.off - it.posInChain else |rest|;
    CompareChunk(heap.mem, t, it, at, rest, n);
    r := Memcmp(c.buffer[c.misalign + it.posInChain..c.misalign + it.posInChain + n], rest[..n]);
    if n < |rest| {
      Chunk(heap.mem, t, EvPtr(it.pos + n, c.next, 0), at.tail);
    }
  }

  /** The loop of evbuffer_ptr_memcmp. */
  method CompareFrom(heap: Heap, pos: EvPtr, what: seq<byte>, ghost t: seq<byte>, ghost at0: Cells) returns (r: int)
    requires Here(heap.mem, t, pos, at0) && pos.pos + |what| <= |t|
    ensures 0 <= pos.pos && r == Order(t[pos.pos..pos.pos + |what|], what)
  {
    var it, rest := pos, what;
    ghost var at := at0;
    Chunk(heap.mem, t, it, at);
    hide Order, Here;
    while rest != [] && it.chain != Null
      invariant 0 <= it.pos && it.pos + |rest| <= |t| && (rest != [] ==> Here(heap.mem, t, it, at) && at.Cons?)
      invariant rest != [] ==> it.chain != Null
      invariant Order(t[it.pos..it.pos + |rest|], rest) == Order(t[pos.pos..pos.pos + |what|], what)
      decreases |rest|, at
    {
      var n;
      r, n := CompareInChunk(heap, it, rest, t, at);
      if r != 0 {
        return;
      }
      it, at := EvPtr(it.pos + n, heap.mem[it.chain].next, 0), at.tail;
      rest := rest[n..];
      if rest != [] {
        Chunk(heap.mem, t, it, at);
      }
    }
    OrderSame(t[it.pos..it.pos + |rest|], rest);
    r := 0;
  }

  // ----- evbuffer_search_range

  /** what occurs nowhere from lo to hi. */
  ghost predicate Absent(t: seq<byte>, what: seq<byte>, lo: int, hi: int) {
    forall q :: lo <= q < hi ==> !Occurs(t, what, q)
  }

  /** Where the first byte of what is not, what is not. */
  lemma ClearAbsent(t: seq<byte>, what: seq<byte>, from: nat, lo: nat, hi: nat)
    requires what != [] && Clear({what[0]}, t, lo, hi) && Absent(t, what, from, lo)
    ensures Absent(t, what, from, hi)
  {
    forall q | lo <= q < hi
      ensures !Occurs(t, what, q)
    {
      assert q + |what| <= |t| ==> t[q..q + |what|][0] == t[q];
    }
  }

  /** The first byte of what is not among the next k bytes of the chunk. */
  lemma SkipAhead(mem: Memory, t: seq<byte>, it: EvPtr, at: Cells, what: seq<byte>, from: nat, k: nat)
    requires Here(mem, t, it, at) && at.Cons? && k <= mem[it.chain].off - it.posInChain
    requires what != [] && Absent(t, what, from, it.pos)
    requires var c := mem[it.chain]; Clear({what[0]}, c.buffer[c.misalign + it.posInChain..c.misalign + c.off], 0, k)
    ensures Absent(t, what, from, it.pos + k) && it.pos + k <= |t|
    ensures Here(mem, t, EvPtr(it.pos + k, it.chain, it.posInChain + k), at)
  {
    ChunkBytes(mem, t, it, at);
    Ahead(mem, t, it, at, k);
    var w := t[it.pos..it.pos + (mem[it.chain].off - it.posInChain)];
    forall j | it.pos <= j < it.pos + k
      ensures t[j] !in {what[0]}
    {
      assert t[j] == w[j - it.pos];
    }
    ClearAbsent(t, what, from, it.pos, it.pos + k);
  }

  /** The end of a chunk is the start of the next one. */
  lemma NextStart(mem: Memory, t: seq<byte>, it: EvPtr, at: Cells)
    requires Here(mem, t, it, at) && at.Cons? && it.posInChain == mem[it.chain].off
    ensures var next := EvPtr(it.pos, mem[it.chain].next, 0);
      Here(mem, t, next, at.tail) && (next.chain == Null ==> it.pos == |t|)
  {
    Chunk(mem, t, it, at);
    Chunk(mem, t, EvPtr(it.pos, mem[it.chain].next, 0), at.tail);
  }

  /** An end in the same chunk is not behind that chunk. */
  lemma EndInChunk(mem: Memory, t: seq<byte>, it: EvPtr, at: Cells, end: EvPtr, atEnd: Cells)
    requires Here(mem, t, it, at) && Here(mem, t, end, atEnd) && at.Cons? && end.chain == it.chain
    ensures end.pos <= it.pos + (mem[it.chain].off - it.posInChain)
  {
    SegUnique(mem, it.chain, at, atEnd);
    SameBase(t, it.pos - it.posInChain, end.pos - end.posInChain, at);
  }

  lemma HereBound(mem: Memory, t: seq<byte>, it: EvPtr, at: Cells)
    requires Here(mem, t, it, at)
    ensures 0 <= it.pos <= |t|
  {
  }

  /** On to the first byte that could start a match, or to the end of the chunk. */
  method Candidate(heap: Heap, it: EvPtr, what: seq<byte>, ghost t: seq<byte>, ghost at: Cells, ghost from: nat)
    returns (found: bool, it': EvPtr)
    requires Here(heap.mem, t, it, at) && at.Cons? && what != [] && Absent(t, what, from, it.pos)
    ensures Here(heap.mem, t, it', at) && it'.chain == it.chain && it.pos <= it'.pos && Absent(t, what, from, it'.pos)
    ensures it.chain in heap.mem && it'.pos <= |t|
    ensures if found then it'.posInChain < heap.mem[it.chain].off else it'.posInChain == heap.mem[it.chain].off
  {
    Chunk(heap.mem, t, it, at);
    var c := heap.mem[it.chain];
    var p := Memchr(c.buffer[c.misalign + it.posInChain..c.misalign + c.off], what[0]);
    found := p >= 0;
    var k := if found then p else c.off - it.posInChain;
    SkipAhead(heap.mem, t, it, at, what, from, k);
    it' := EvPtr(it.pos + k, it.chain, it.posInChain + k);
  }

  /** On to the next chunk. */
  method NextChain(heap: Heap, it: EvPtr, ghost t: seq<byte>, ghost at: Cells) returns (it': EvPtr)
    requires Here(heap.mem, t, it, at) && at.Cons? && it.posInChain == heap.mem[it.chain].off
    ensures it'.pos == it.pos && Here(heap.mem, t, it', at.tail) && (it'.chain == Null ==> it.pos == |t|)
  {
    NextStart(heap.mem, t, it, at);
    it' := EvPtr(it.pos, heap.mem[it.chain].next, 0);
  }

  /** On to the next byte. */
  method NextByte(heap: Heap, it: EvPtr, ghost t: seq<byte>, ghost at: Cells) returns (it': EvPtr, ghost at': Cells)
    requires Here(heap.mem, t, it, at) && at.Cons? && it.posInChain < heap.mem[it.chain].off
    ensures it'.pos == it.pos + 1 <= |t| && Here(heap.mem, t, it', at') && (it'.chain == Null ==> it'.pos == |t|)
    ensures at' == at || at' == at.tail
  {
    Ahead(heap.mem, t, it, at, 1);
    it', at' := EvPtr(it.pos + 1, it.chain, it.posInChain + 1), at;
    if it'.posInChain == heap.mem[it.chain].off {
      it' := NextChain(heap, it', t, at);
      at' := at.tail;
    }
  }

  /** Compares at a candidate; on to the next byte if it does not match. */
  method TryHere(buf: EvBuffer, it: EvPtr, what: seq<byte>, ghost at: Cells, ghost from: nat)
    returns (matches: bool, it': EvPtr, ghost at': Cells)
    requires buf.Valid() && Here(buf.heap.mem, buf.Bytes(), it, at) && at.Cons?
    requires it.chain in buf.heap.mem && it.posInChain < buf.heap.mem[it.chain].off
    requires Absent(buf.Bytes(), what, from, it.pos)
    ensures Here(buf.heap.mem, buf.Bytes(), it', at')
    ensures matches <==> Occurs(buf.Bytes(), what, it.pos)
    ensures matches ==> it' == it && at' == at
    ensures !matches ==>
      && it'.pos == it.pos + 1 <= |buf.Bytes()| && (it'.chain == Null ==> it'.pos == |buf.Bytes()|)
      && Absent(buf.Bytes(), what, from, it'.pos) && (at' == at || at' == at.tail)
  {
    it', at' := it, at;
    var r := PtrMemcmp(buf, it, what, at);
    matches := r == 0;
    if !matches {
      it', at' := NextByte(buf.heap, it, buf.Bytes(), at);
    }
  }

  /** How far a match may reach. */
  ghost function Limit(t: seq<byte>, end: EndPtr): int {
    if end.NoEnd? then |t| else end.it.pos
  }

  datatype EndPtr = NoEnd | End(it: EvPtr)

  /** The first match at or after position from that ends at limit or before. */
  ghost predicate FirstMatch(t: seq<byte>, what: seq<byte>, from: int, limit: int, r: int) {
    if r == -1 then Absent(t, what, from, limit - |what| + 1)
    else from <= r && r + |what| <= limit && Occurs(t, what, r) && Absent(t, what, from, r)
  }

  /** What a first match is for the bytes: the pattern is there, and at no earlier
      position q that leaves room for it. */
  lemma FirstMatchBytes(t: seq<byte>, what: seq<byte>, from: int, limit: int, r: int, q: int)
    requires 0 <= from && limit <= |t| && FirstMatch(t, what, from, limit, r)
    ensures r != -1 ==> from <= r && r + |what| <= limit && t[r..r + |what|] == what
    ensures from <= q && q + |what| <= limit && (r == -1 || q < r) ==> t[q..q + |what|] != what
  {
    assert from <= q && q + |what| <= limit && (r == -1 || q < r) ==> !Occurs(t, what, q);
  }

  /** evbuffer_search_range. With no end it is evbuffer_search. */
  method SearchRange(buf: EvBuffer, what: seq<byte>, start: EvPtr, end: EndPtr, ghost at0: Cells, ghost atEnd: Cells)
    returns (pos: EvPtr, ghost at: Cells)
    requires buf.Valid() && Here(buf.heap.mem, buf.Bytes(), start, at0)
    requires end.End? ==> Here(buf.heap.mem, buf.Bytes(), end.it, atEnd)
    ensures what == [] ==> pos == start
    ensures what != [] ==>
      FirstMatch(buf.Bytes(), what, start.pos, if end.End? then end.it.pos else |buf.Bytes()|, pos.pos)
    ensures pos.pos != -1 ==> Here(buf.heap.mem, buf.Bytes(), pos, at)
  {
    pos, at := start, at0;
    if what != [] {
      pos, at := SearchFrom(buf, what, start, end, at0, atEnd);
    }
  }

  /** The loop of evbuffer_search_range. */
  method SearchFrom(buf: EvBuffer, what: seq<byte>, start: EvPtr, end: EndPtr, ghost at0: Cells, ghost atEnd: Cells)
    returns (pos: EvPtr, ghost at: Cells)
    requires buf.Valid() && Here(buf.heap.mem, buf.Bytes(), start, at0) && what != []
    requires end.End? ==> Here(buf.heap.mem, buf.Bytes(), end.it, atEnd)
    ensures FirstMatch(buf.Bytes(), what, start.pos, Limit(buf.Bytes(), end), pos.pos)
    ensures pos.pos != -1 ==> Here(buf.heap.mem, buf.Bytes(), pos, at)
  {
    var lastChain := if end.End? then end.it.chain else Null;
    ghost var t := buf.Bytes();
    pos, at := start, at0;
    Chunk(buf.heap.mem, t, pos, at);
    if end.End? {
      HereBound(buf.heap.mem, t, end.it, atEnd);
    }
    while pos.chain != Null
      invariant Here(buf.heap.mem, t, pos, at) && start.pos <= pos.pos <= |t| && Absent(t, what, start.pos, pos.pos)
      invariant pos.chain == Null ==> pos.pos == |t|
      decreases at, |t| - pos.pos
    {
      Chunk(buf.heap.mem, t, pos, at);
      var found;
      found, pos := Candidate(buf.heap, pos, what, t, at, start.pos);
      if found {
        var matches;
        matches, pos, at := TryHere(buf, pos, what, at, start.pos);
        if matches {
          if end.End? && pos.pos + |what| > end.it.pos {
            break;
          } else {
            return;
          }
        }
      } else {
        if pos.chain == lastChain {
          EndInChunk(buf.heap.mem, t, pos, at, end.it, atEnd);
          break;
        }
        pos := NextChain(buf.heap, pos, t, at);
        at := at.tail;
      }
    }
    pos := EvPtr(-1, Null, pos.posInChain);
  }

  /** The rest of t determines where it starts. */
  lemma {:induction false} SameBase(t: seq<byte>, a: int, b: int, cs: Cells)
    requires Rest(t, a, cs) && Rest(t, b, cs)
    ensures a == b
    decreases cs
  {
    if cs.Cons? {
      SameBase(t, a + |cs.data|, b + |cs.data|, cs.tail);
    }
  }

  // ----- ends of lines

  const CRLF: seq<byte> := [CR, LF]

  /** evbuffer_eol_style */
  datatype EolStyle = Any | Crlf | CrlfStrict | Lf

  /** The number of CR and LF bytes in a row from position q on. */
  ghost function RunLen(t: seq<byte>, q: nat): nat
    decreases |t| - q
  {
    if q < |t| && (t[q] == CR || t[q] == LF) then 1 + RunLen(t, q + 1) else 0
  }

  /** The length of the end of line at position q, 0 if there is none. */
  ghost function EolLen(style: EolStyle, t: seq<byte>, q: nat): nat {
    match style
    case Any => RunLen(t, q)
    case Crlf => if q < |t| && t[q] == LF then 1 else if Occurs(t, CRLF, q) then 2 else 0
    case CrlfStrict => if Occurs(t, CRLF, q) then 2 else 0
    case Lf => if q < |t| && t[q] == LF then 1 else 0
  }

  /** No end of line starts from lo to hi. */
  ghost predicate NoEol(style: EolStyle, t: seq<byte>, lo: nat, hi: int) {
    forall q :: lo <= q < hi ==> EolLen(style, t, q) == 0
  }

  /** The first end of line at or after position from is at r and has length len. */
  ghost predicate FirstEol(style: EolStyle, t: seq<byte>, from: nat, r: int, len: nat) {
    if r == -1 then len == 0 && NoEol(style, t, from, |t|)
    else from <= r < |t| && 0 < len == EolLen(style, t, r) && NoEol(style, t, from, r)
  }

  lemma {:induction false} RunIs(t: seq<byte>, pos: nat, n: nat)
    requires RunOf(t, pos, CRLF, n)
    ensures RunLen(t, pos) == n
    decreases n
  {
    if n > 0 {
      assert t[pos] in CRLF;
      RunIs(t, pos + 1, n - 1);
    }
  }

  lemma ClearNoEol(t: seq<byte>, from: nat, lo: nat, hi: int)
    requires Clear(EOL_CHARS, t, lo, hi)
    ensures NoEol(Any, t, lo, hi)
    ensures NoEol(Crlf, t, from, lo) ==> NoEol(Crlf, t, from, hi)
  {
    forall q | lo <= q < hi
      ensures EolLen(Crlf, t, q) == 0
    {
      assert t[q] !in EOL_CHARS;
      assert q + |CRLF| <= |t| ==> t[q..q + |CRLF|][0] == t[q];
    }
  }

  /** The case of evbuffer_search_eol for EVBUFFER_EOL_ANY. */
  method SearchAny(buf: EvBuffer, it0: EvPtr, ghost at0: Cells) returns (it: EvPtr, eolLen: nat)
    requires buf.Valid() && Here(buf.heap.mem, buf.Bytes(), it0, at0)
    ensures FirstEol(Any, buf.Bytes(), it0.pos, it.pos, eolLen)
    ensures it.pos != -1 ==> Usable(buf.heap.mem, buf.Bytes(), it)
  {
    ghost var t := buf.Bytes();
    var r;
    ghost var at;
    r, it, at := FindEol(buf.heap, it0, t, at0);
    if r < 0 {
      ClearNoEol(t, it0.pos, it0.pos, |t|);
      return EvPtr(-1, it.chain, it.posInChain), 0;
    }
    var n, _ := Strspn(buf.heap, it, CRLF, t, at);
    ClearNoEol(t, it0.pos, it0.pos, r);
    Chunk(buf.heap.mem, t, it, at);
    RunIs(t, r, n);
    eolLen := n;
  }

  /** Whether the stop character that was found starts an end of line. */
  method CrlfAt(buf: EvBuffer, it: EvPtr, ghost at: Cells) returns (eolLen: nat)
    requires buf.Valid() && Here(buf.heap.mem, buf.Bytes(), it, at) && at.Cons? && it.posInChain < |at.data|
    ensures it.pos < |buf.Bytes()| && eolLen == EolLen(Crlf, buf.Bytes(), it.pos)
  {
    var c := Getchr(buf.heap, it, buf.Bytes(), at);
    if c == LF {
      return 1;
    }
    var m := PtrMemcmp(buf, it, CRLF, at);
    eolLen := if m == 0 then 2 else 0;
  }

  /** The next stop character. */
  method NextStop(buf: EvBuffer, it0: EvPtr, ghost at0: Cells, ghost from: nat)
    returns (it: EvPtr, eolLen: nat, ghost at: Cells)
    requires buf.Valid() && Here(buf.heap.mem, buf.Bytes(), it0, at0) && from <= it0.pos
    requires NoEol(Crlf, buf.Bytes(), from, it0.pos)
    ensures it.pos == -1 ==> eolLen == 0 && NoEol(Crlf, buf.Bytes(), from, |buf.Bytes()|)
    ensures it.pos != -1 ==>
      && Here(buf.heap.mem, buf.Bytes(), it, at) && it0.pos <= it.pos < |buf.Bytes()|
      && NoEol(Crlf, buf.Bytes(), from, it.pos) && eolLen == EolLen(Crlf, buf.Bytes(), it.pos)
  {
    ghost var t := buf.Bytes();
    var r;
    r, it, at := FindEol(buf.heap, it0, t, at0);
    ClearNoEol(t, from, it0.pos, if r == -1 then |t| else r);
    if r < 0 {
      it, eolLen := EvPtr(-1, it.chain, it.posInChain), 0;
    } else {
      eolLen := CrlfAt(buf, it, at);
    }
  }

  lemma NoEolYet(style: EolStyle, t: seq<byte>, from: nat, q: nat)
    requires NoEol(style, t, from, q) && EolLen(style, t, q) == 0
    ensures NoEol(style, t, from, q + 1)
  {
  }

  /** One round of the loop below. */
  method CrlfRound(buf: EvBuffer, it0: EvPtr, ghost at0: Cells, ghost from: nat)
    returns (done: bool, it: EvPtr, eolLen: nat, ghost at: Cells)
    requires buf.Valid() && Here(buf.heap.mem, buf.Bytes(), it0, at0) && from <= it0.pos
    requires NoEol(Crlf, buf.Bytes(), from, it0.pos)
    ensures done ==> FirstEol(Crlf, buf.Bytes(), from, it.pos, eolLen)
    ensures done && it.pos != -1 ==> Usable(buf.heap.mem, buf.Bytes(), it)
    ensures !done ==>
      && Here(buf.heap.mem, buf.Bytes(), it, at) && it0.pos < it.pos <= |buf.Bytes()|
      && NoEol(Crlf, buf.Bytes(), from, it.pos)
  {
    ghost var t := buf.Bytes();
    it, eolLen, at := NextStop(buf, it0, at0, from);
    done := it.pos < 0 || eolLen > 0;
    if !done {
      NoEolYet(Crlf, t, from, it.pos);
      var r;
      r, it, at := PtrSet(buf, it, 1, Add, at);
      done := r < 0;
    }
  }

  /** The case of evbuffer_search_eol for EVBUFFER_EOL_CRLF. */
  method SearchCrlf(buf: EvBuffer, it0: EvPtr, ghost at0: Cells) returns (it: EvPtr, eolLen: nat)
    requires buf.Valid() && Here(buf.heap.mem, buf.Bytes(), it0, at0)
    ensures FirstEol(Crlf, buf.Bytes(), it0.pos, it.pos, eolLen)
    ensures it.pos != -1 ==> Usable(buf.heap.mem, buf.Bytes(), it)
  {
    it := it0;
    ghost var at := at0;
    while true
      invariant Here(buf.heap.mem, buf.Bytes(), it, at) && it0.pos <= it.pos && NoEol(Crlf, buf.Bytes(), it0.pos, it.pos)
      decreases |buf.Bytes()| - it.pos
    {
      var done;
      done, it, eolLen, at := CrlfRound(buf, it, at, it0.pos);
      if done {
        return;
      }
    }
  }

  /** evbuffer_getchr */
  method Getchr(heap: Heap, it: EvPtr, ghost t: seq<byte>, ghost at: Cells) returns (c: byte)
    requires Here(heap.mem, t, it, at) && at.Cons? && it.posInChain < |at.data|
    ensures it.pos < |t| && c == t[it.pos]
  {
    StepInChunk(heap.mem, t, it, at, it.pos, []);
    c := heap.mem[it.chain].buffer[heap.mem[it.chain].misalign + it.posInChain];
  }

  /** evbuffer_search_eol: where the first end of line is, with a pointer to it. */
  method SearchEol(buf: EvBuffer, start: EvPtr, style: EolStyle, ghost at0: Cells) returns (it: EvPtr, eolLen: nat)
    requires buf.Valid() && Here(buf.heap.mem, buf.Bytes(), start, at0)
    ensures FirstEol(style, buf.Bytes(), start.pos, it.pos, eolLen)
    ensures it.pos != -1 ==> Usable(buf.heap.mem, buf.Bytes(), it)
  {
    ghost var t := buf.Bytes();
    HereBound(buf.heap.mem, t, start, at0);
    match style {
      case Any =>
        it, eolLen := SearchAny(buf, start, at0);
      case CrlfStrict =>
        ghost var at;
        it, at := SearchRange(buf, CRLF, start, NoEnd, at0, Nil);
        StrictEol(t, start.pos, it.pos);
        eolLen := if it.pos < 0 then 0 else 2;
      case Crlf =>
        it, eolLen := SearchCrlf(buf, start, at0);
      case Lf =>
        var r;
        ghost var at;
        r, it, at := Strchr(buf.heap, start, LF, t, at0);
        if r < 0 {
          it, eolLen := EvPtr(-1, it.chain, it.posInChain), 0;
        } else {
          eolLen := 1;
        }
    }
  }

  lemma StrictEol(t: seq<byte>, from: nat, r: int)
    requires from <= |t| && FirstMatch(t, CRLF, from, |t|, r)
    ensures FirstEol(CrlfStrict, t, from, r, if r == -1 then 0 else 2)
  {
  }

  datatype Line = NoLine | Line(bytes: seq<byte>)

  /** The steps of evbuffer_readln. */
  method CutLine(buf: EvBuffer, style: EolStyle) returns (line: Line)
    requires buf.Valid() && buf.Accounted()
    modifies buf, buf.heap
    ensures buf.Valid() && buf.Accounted() && (old(buf.Tight()) ==> buf.Tight())
    ensures line.NoLine? ==>
      NoEol(style, old(buf.Bytes()), 0, |old(buf.Bytes())|) && unchanged(buf) && unchanged(buf.heap)
    ensures line.Line? ==>
      var t, n := old(buf.Bytes()), |line.bytes|;
      && n < |t| && NoEol(style, t, 0, n) && 0 < EolLen(style, t, n) && n + EolLen(style, t, n) <= |t|
      && t == line.bytes + t[n..n + EolLen(style, t, n)] + buf.Bytes()
    ensures Swaps(old(buf.heap.mem), old(buf.Own()), buf.heap.mem, buf.Own())
  {
    ghost var t := buf.Bytes();
    Start(buf);
    var it, extraDrain := SearchEol(buf, EvPtr(0, buf.first, 0), style, Cat(buf.data, buf.spare));
    if it.pos < 0 {
      return NoLine;
    }
    EolFits(style, t, it.pos);
    var bytes := Remove(buf, it.pos);
    LineParts(t, bytes, buf.Bytes(), extraDrain);
    Drain(buf, extraDrain);
    line := Line(bytes);
  }

  /** evbuffer_readln: the bytes are the line, the first end of line, and what is
      left; without an end of line nothing changes. Then the same for each style,
      byte by byte: 10 is LF and 13 is CR. */
  method Readln(buf: EvBuffer, style: EolStyle) returns (line: Line)
    requires buf.Valid() && buf.Accounted()
    modifies buf, buf.heap
    ensures buf.Valid() && buf.Accounted() && (old(buf.Tight()) ==> buf.Tight())
    ensures line.NoLine? ==>
      NoEol(style, old(buf.Bytes()), 0, |old(buf.Bytes())|) && unchanged(buf) && unchanged(buf.heap)
    ensures line.Line? ==>
      var t, n := old(buf.Bytes()), |line.bytes|;
      && n < |t| && NoEol(style, t, 0, n) && 0 < EolLen(style, t, n) && n + EolLen(style, t, n) <= |t|
      && t == line.bytes + t[n..n + EolLen(style, t, n)] + buf.Bytes()
    ensures style.Lf? ==>
      var t, rest := old(buf.Bytes()), buf.Bytes();
      && (line.NoLine? <==> 10 !in t)
      && (line.Line? ==> 10 !in line.bytes && t == line.bytes + [10] + rest)
    ensures style.Crlf? ==>
      var t, rest := old(buf.Bytes()), buf.Bytes();
      && (line.NoLine? <==> 10 !in t)
      && (line.Line? ==> 10 !in line.bytes)
      && (line.Line? ==> t == line.bytes + [13, 10] + rest ||
                         (t == line.bytes + [10] + rest && (line.bytes == [] || line.bytes[|line.bytes| - 1] != 13)))
    ensures style.CrlfStrict? ==>
      var t, rest := old(buf.Bytes()), buf.Bytes();
      && (line.NoLine? <==> forall q :: 0 <= q < |t| - 1 ==> t[q] != 13 || t[q + 1] != 10)
      && (line.Line? ==> t == line.bytes + [13, 10] + rest)
      && (line.Line? ==> forall q :: 0 <= q < |line.bytes| ==> t[q] != 13 || t[q + 1] != 10)
    ensures style.Any? ==>
      var t, rest := old(buf.Bytes()), buf.Bytes();
      && (line.NoLine? <==> 10 !in t && 13 !in t)
      && (line.Line? ==> 10 !in line.bytes && 13 !in line.bytes && |line.bytes| + |rest| < |t|)
      && (line.Line? ==> forall q :: |line.bytes| <= q < |t| - |rest| ==> t[q] == 10 || t[q] == 13)
      && (line.Line? ==> t[..|line.bytes|] == line.bytes && t[|t| - |rest|..] == rest)
      && (line.Line? && rest != [] ==> rest[0] != 10 && rest[0] != 13)
    ensures Swaps(old(buf.heap.mem), old(buf.Own()), buf.heap.mem, buf.Own())
  {
    hide EolLen, NoEol;
    ghost var t := buf.Bytes();
    line := CutLine(buf, style);
    if line.NoLine? {
      NoLineBytes(style, t);
    } else {
      LineBytes(style, t, line.bytes, buf.Bytes());
    }
  }

  lemma NoLineBytes(style: EolStyle, t: seq<byte>)
    requires NoEol(style, t, 0, |t|)
    ensures style.Any? ==> 10 !in t && 13 !in t
    ensures style.Lf? || style.Crlf? ==> 10 !in t
    ensures style.CrlfStrict? ==> forall q :: 0 <= q < |t| - 1 ==> t[q] != 13 || t[q + 1] != 10
  {
    forall q | 0 <= q < |t|
      ensures style.Any? ==> t[q] != 10 && t[q] != 13
      ensures style.Lf? || style.Crlf? ==> t[q] != 10
      ensures style.CrlfStrict? ==> q < |t| - 1 ==> t[q] != 13 || t[q + 1] != 10
    {
      NoEolByte(style, t, q);
    }
  }

  /** The bytes where no end of line starts. */
  lemma NoEolByte(style: EolStyle, t: seq<byte>, q: nat)
    requires q < |t| && EolLen(style, t, q) == 0
    ensures style.Any? ==> t[q] != 10 && t[q] != 13
    ensures style.Lf? || style.Crlf? ==> t[q] != 10
    ensures style.CrlfStrict? || style.Crlf? ==> q < |t| - 1 ==> t[q] != 13 || t[q + 1] != 10
  {
    assert q + 2 <= |t| ==> t[q..q + 2] == [t[q], t[q + 1]];
  }

  /** The bytes of an end of line. */
  lemma EolBytes(style: EolStyle, t: seq<byte>, n: nat)
    requires n < |t| && EolLen(style, t, n) > 0
    ensures n + EolLen(style, t, n) <= |t|
    ensures style.Lf? ==> t[n..n + EolLen(style, t, n)] == [10]
    ensures style.CrlfStrict? ==> t[n..n + EolLen(style, t, n)] == [13, 10]
    ensures style.Crlf? ==> t[n..n + EolLen(style, t, n)] == [10] || t[n..n + EolLen(style, t, n)] == [13, 10]
    ensures style.Any? ==> forall k :: n <= k < n + EolLen(style, t, n) ==> t[k] == 10 || t[k] == 13
    ensures style.Any? && n + EolLen(style, t, n) < |t| ==>
      t[n + EolLen(style, t, n)] != 10 && t[n + EolLen(style, t, n)] != 13
  {
    if style.Any? {
      RunBytes(t, n);
    } else if EolLen(style, t, n) == 1 {
      assert t[n..n + 1] == [t[n]];
    }
  }

  lemma {:induction false} RunBytes(t: seq<byte>, q: nat)
    requires q <= |t|
    ensures q + RunLen(t, q) <= |t|
    ensures forall k :: q <= k < q + RunLen(t, q) ==> t[k] == 10 || t[k] == 13
    ensures q + RunLen(t, q) < |t| ==> t[q + RunLen(t, q)] != 10 && t[q + RunLen(t, q)] != 13
    decreases |t| - q
  {
    if q < |t| && (t[q] == CR || t[q] == LF) {
      RunBytes(t, q + 1);
    }
  }

  /** What a line, its end and the rest are, byte by byte. */
  lemma LineBytes(style: EolStyle, t: seq<byte>, line: seq<byte>, rest: seq<byte>)
    requires |line| < |t| && NoEol(style, t, 0, |line|) && 0 < EolLen(style, t, |line|)
    requires |line| + EolLen(style, t, |line|) <= |t|
    requires t == line + t[|line|..|line| + EolLen(style, t, |line|)] + rest
    ensures style.Lf? ==> 10 !in line && 10 in t && t == line + [10] + rest
    ensures style.Crlf? ==> 10 !in line && 10 in t
    ensures style.Crlf? ==>
      t == line + [13, 10] + rest || (t == line + [10] + rest && (line == [] || line[|line| - 1] != 13))
    ensures style.CrlfStrict? ==> t == line + [13, 10] + rest && t[|line|] == 13 && t[|line| + 1] == 10
    ensures style.CrlfStrict? ==> forall q :: 0 <= q < |line| ==> t[q] != 13 || t[q + 1] != 10
    ensures style.Any? ==> 10 !in line && 13 !in line && |line| + |rest| < |t| && t[|line|] in t
    ensures style.Any? ==> forall q :: |line| <= q < |t| - |rest| ==> t[q] == 10 || t[q] == 13
    ensures t[..|line|] == line && t[|t| - |rest|..] == rest
    ensures style.Any? && rest != [] ==> rest[0] != 10 && rest[0] != 13
  {
    var n, len := |line|, EolLen(style, t, |line|);
    EolBytes(style, t, n);
    LineCut(t, line, rest, len);
    forall q | 0 <= q < n
      ensures style.Any? ==> line[q] != 10 && line[q] != 13
      ensures style.Lf? || style.Crlf? ==> line[q] != 10
      ensures style.CrlfStrict? || style.Crlf? ==> t[q] != 13 || t[q + 1] != 10
    {
      assert t[q] == t[..n][q];
      NoEolByte(style, t, q);
    }
    hide EolLen, NoEol;
    LineEnd(t, line, t[n..n + len], rest);
  }

  lemma LineCut(t: seq<byte>, line: seq<byte>, rest: seq<byte>, len: nat)
    requires |line| + len <= |t| && t == line + t[|line|..|line| + len] + rest
    ensures |t| == |line| + len + |rest| && t[..|line|] == line && t[|line| + len..] == rest
  {
  }

  lemma LineEnd(t: seq<byte>, line: seq<byte>, eol: seq<byte>, rest: seq<byte>)
    requires t == line + eol + rest
    ensures eol == [10] ==> t[|line|] == 10 && 10 in t
    ensures eol == [13, 10] ==> t[|line|] == 13 && t[|line| + 1] == 10 && 10 in t
    ensures line != [] ==> t[|line| - 1] == line[|line| - 1]
  {
    assert eol == [10] ==> t[|line|] == 10;
    assert eol == [13, 10] ==> t[|line|] == 13 && t[|line| + 1] == 10;
  }

  lemma LineParts(t: seq<byte>, line: seq<byte>, rest: seq<byte>, n: nat)
    requires t == line + rest && |line| + n <= |t|
    ensures t == line + t[|line|..|line| + n] + rest[n..]
  {
  }

  lemma {:induction false} EolFits(style: EolStyle, t: seq<byte>, q: nat)
    requires q <= |t|
    ensures q + EolLen(style, t, q) <= |t|
    decreases |t| - q
  {
    if style.Any? && q < |t| {
      EolFits(style, t, q + 1);
    }
  }
}
