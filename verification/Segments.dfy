/** Memory chunks in an explicit memory, and list segments over them.

    An allocated chunk is a key of the memory map; freeing removes the key, so
    every access to a freed or null address is a proof failure. */
module Segments {

  newtype byte = x: int | 0 <= x < 256

  datatype Ptr = Null | Addr(a: int)

  /** struct evbuffer_chain. The bytes in use are
      buffer[misalign..misalign + off]. */
  datatype Chain = Chain(next: Ptr, misalign: nat, off: nat, buffer: seq<byte>) {
    /** CHAIN_SPACE_LEN */
    function SpaceLen(): int {
      |buffer| - (misalign + off)
    }
  }

  type Memory = map<Ptr, Chain>

  /** A list of chunks as its owner sees it: where each of them is and what its
      window reads. */
  datatype Cells = Nil | Cons(p: Ptr, data: seq<byte>, tail: Cells)

  ghost predicate Reads(c: Chain, data: seq<byte>) {
    && 0 < |c.buffer|
    && c.misalign + c.off <= |c.buffer|
    && c.buffer[c.misalign..c.misalign + c.off] == data
  }

  /** Following `next` from p visits the chunks of cs in order and ends at q. */
  ghost predicate Seg(mem: Memory, p: Ptr, cs: Cells, q: Ptr)
    decreases cs
  {
    match cs
    case Nil => p == q
    case Cons(r, data, tail) =>
      p == r && p != Null && p in mem && Reads(mem[p], data) && Seg(mem, mem[p].next, tail, q)
  }

  ghost function Cat(a: Cells, b: Cells): Cells {
    match a
    case Nil => b
    case Cons(p, data, tail) => Cons(p, data, Cat(tail, b))
  }

  ghost function Ptrs(cs: Cells): set<Ptr> {
    match cs
    case Nil => {}
    case Cons(p, _, tail) => {p} + Ptrs(tail)
  }

  /** No address occurs twice. */
  ghost predicate NoDup(cs: Cells) {
    cs.Cons? ==> cs.p !in Ptrs(cs.tail) && NoDup(cs.tail)
  }

  /** The bytes a list stands for. */
  ghost function Flat(cs: Cells): seq<byte> {
    match cs
    case Nil => []
    case Cons(_, data, tail) => data + Flat(tail)
  }

  /** Where a segment that continues with cs and then q starts. */
  ghost function Head(cs: Cells, q: Ptr): Ptr {
    if cs.Nil? then q else cs.p
  }

  ghost function LastOf(cs: Cells): Ptr {
    match cs
    case Nil => Null
    case Cons(p, _, tail) => if tail.Nil? then p else LastOf(tail)
  }

  ghost predicate AllData(cs: Cells) {
    cs.Cons? ==> cs.data != [] && AllData(cs.tail)
  }

  ghost predicate AllEmpty(cs: Cells) {
    cs.Cons? ==> cs.data == [] && AllEmpty(cs.tail)
  }

  /** Memory changed from mem to mem' by turning the chunks `own` into the
      chunks `own'`: everything else is as it was, every chunk of `own` that is
      not in `own'` has been freed and every new chunk is in `own'`. */
  ghost predicate Swaps(mem: Memory, own: set<Ptr>, mem': Memory, own': set<Ptr>) {
    mem' - own' == mem - own
  }

  // ----- memory

  lemma SwapsOne(mem: Memory, own: set<Ptr>, p: Ptr, ch: Chain)
    requires p in own
    ensures Swaps(mem, own, mem[p := ch], own)
  {
  }

  /** A chunk allocated before a change belongs to whoever it is given to. */
  lemma SwapsFresh(mem0: Memory, p: Ptr, mem1: Memory, own: set<Ptr>, mem2: Memory)
    requires mem1 - {p} == mem0 && Swaps(mem1, own, mem2, own)
    ensures Swaps(mem0, own, mem2, own + {p})
  {
    assert mem2 - (own + {p}) == (mem2 - own) - {p};
    assert (mem1 - own) - {p} == (mem1 - {p}) - own;
  }

  lemma SwapsElsewhere(mem: Memory, own: set<Ptr>, mem': Memory, p: Ptr)
    requires Swaps(mem, own, mem', own) && p in mem && p !in own
    ensures p in mem' && mem'[p] == mem[p]
  {
    assert p in mem - own;
    assert (mem' - own)[p] == mem'[p];
  }

  lemma SwapsBoth(mem: Memory, own: set<Ptr>, mem1: Memory, own': set<Ptr>, t: Ptr, mem': Memory)
    requires Swaps(mem, own, mem1, own') && mem' - {t} == mem1 - {t}
    ensures Swaps(mem, own + {t}, mem', {t} + own')
  {
    assert mem - (own + {t}) == (mem - own) - {t};
    assert mem' - ({t} + own') == (mem' - {t}) - own';
    assert mem1 - {t} - own' == (mem1 - own') - {t};
  }

  // ----- byte strings

  lemma DropConcat(d: seq<byte>, rest: seq<byte>, n: nat)
    requires n <= |d|
    ensures d[n..] + rest == (d + rest)[n..]
  {
  }

  lemma TakeConcat(d: seq<byte>, rest: seq<byte>, n: nat)
    ensures n <= |d| ==> (d + rest)[..n] == d[..n]
    ensures |d| <= n <= |d| + |rest| ==> (d + rest)[..n] == d + rest[..n - |d|]
  {
  }

  lemma Assoc(a: seq<byte>, b: seq<byte>, c: seq<byte>)
    ensures (a + b) + c == a + (b + c)
  {
  }

  // ----- lists

  lemma {:induction false} CatNil(a: Cells)
    ensures Cat(a, Nil) == a
  {
    if a.Cons? {
      CatNil(a.tail);
    }
  }

  lemma {:induction false} CatAssoc(a: Cells, b: Cells, c: Cells)
    ensures Cat(Cat(a, b), c) == Cat(a, Cat(b, c))
  {
    if a.Cons? {
      CatAssoc(a.tail, b, c);
    }
  }

  /** What a concatenation is made of. */
  lemma {:induction false} CatParts(a: Cells, b: Cells)
    ensures Ptrs(Cat(a, b)) == Ptrs(a) + Ptrs(b)
    ensures NoDup(Cat(a, b)) <==> NoDup(a) && NoDup(b) && Ptrs(a) !! Ptrs(b)
    ensures Flat(Cat(a, b)) == Flat(a) + Flat(b)
    ensures AllData(Cat(a, b)) <==> AllData(a) && AllData(b)
    ensures AllEmpty(Cat(a, b)) <==> AllEmpty(a) && AllEmpty(b)
    ensures LastOf(Cat(a, b)) == if b.Nil? then LastOf(a) else LastOf(b)
    ensures Cat(a, b).Nil? <==> a.Nil? && b.Nil?
  {
    if a.Cons? {
      CatParts(a.tail, b);
      Assoc(a.data, Flat(a.tail), Flat(b));
    }
  }

  lemma {:induction false} FlatEmpty(cs: Cells)
    requires AllEmpty(cs)
    ensures Flat(cs) == []
  {
    if cs.Cons? {
      FlatEmpty(cs.tail);
    }
  }

  lemma {:induction false} LastIn(cs: Cells)
    requires cs.Cons?
    ensures LastOf(cs) in Ptrs(cs)
  {
    if cs.tail.Cons? {
      LastIn(cs.tail);
    }
  }

  /** A nonempty list is what comes before its last chunk, and that chunk. */
  lemma {:induction false} SplitLast(cs: Cells) returns (front: Cells, d: seq<byte>)
    requires cs.Cons?
    ensures cs == Cat(front, Cons(LastOf(cs), d, Nil))
    ensures front.Nil? ==> cs.tail.Nil?
  {
    if cs.tail.Nil? {
      front, d := Nil, cs.data;
    } else {
      var f;
      f, d := SplitLast(cs.tail);
      front := Cons(cs.p, cs.data, f);
    }
  }

  // ----- list segments

  /** A list can be cut anywhere. */
  lemma {:induction false} SegCat(mem: Memory, p: Ptr, a: Cells, b: Cells, q: Ptr)
    ensures Seg(mem, p, Cat(a, b), q) <==> Seg(mem, p, a, Head(b, q)) && Seg(mem, Head(b, q), b, q)
    decreases a
  {
    if a.Cons? && p in mem {
      SegCat(mem, mem[p].next, a.tail, b, q);
    }
  }

  /** A segment only depends on its own chunks. */
  lemma {:induction false} SegFrame(mem: Memory, mem': Memory, p: Ptr, cs: Cells, q: Ptr)
    requires Seg(mem, p, cs, q)
    requires forall r :: r in Ptrs(cs) && r in mem ==> r in mem' && mem'[r] == mem[r]
    ensures Seg(mem', p, cs, q)
    decreases cs
  {
    if cs.Cons? {
      SegFrame(mem, mem', mem[p].next, cs.tail, q);
    }
  }

  lemma {:induction false} SegPtrs(mem: Memory, p: Ptr, cs: Cells, q: Ptr)
    requires Seg(mem, p, cs, q)
    ensures Ptrs(cs) <= mem.Keys
    ensures Null !in Ptrs(cs)
    decreases cs
  {
    if cs.Cons? {
      SegPtrs(mem, mem[p].next, cs.tail, q);
    }
  }

  /** A chunk belongs to one list only. */
  lemma {:induction false} SegUnique(mem: Memory, p: Ptr, a: Cells, b: Cells)
    requires Seg(mem, p, a, Null) && Seg(mem, p, b, Null)
    ensures a == b
    decreases a
  {
    if a.Cons? && b.Cons? {
      SegUnique(mem, mem[p].next, a.tail, b.tail);
    }
  }

  /** A segment untouched by a change elsewhere. */
  lemma SegSwaps(mem: Memory, own: set<Ptr>, mem': Memory, own': set<Ptr>, p: Ptr, cs: Cells, q: Ptr)
    requires Swaps(mem, own, mem', own') && Seg(mem, p, cs, q) && Ptrs(cs) !! own
    ensures Seg(mem', p, cs, q) && Ptrs(cs) !! own'
  {
    SegPtrs(mem, p, cs, q);
    forall r | r in Ptrs(cs)
      ensures r !in own' && r in mem' && mem'[r] == mem[r]
    {
      assert r in mem - own;
    }
    SegFrame(mem, mem', p, cs, q);
  }

  /** Freeing the head of a list leaves the rest of it intact. */
  lemma SegPop(mem: Memory, p: Ptr, cs: Cells, q: Ptr)
    requires Seg(mem, p, cs, q) && NoDup(cs) && cs.Cons?
    ensures Seg(mem - {p}, mem[p].next, cs.tail, q) && NoDup(cs.tail)
    ensures Swaps(mem, Ptrs(cs), mem - {p}, Ptrs(cs.tail))
  {
    SegFrame(mem, mem - {p}, mem[p].next, cs.tail, q);
  }

  /** Rewriting the contents of the first chunk. */
  lemma SegWriteHead(mem: Memory, p: Ptr, cs: Cells, q: Ptr, ch: Chain, data: seq<byte>)
    requires Seg(mem, p, cs, q) && NoDup(cs) && cs.Cons?
    requires ch.next == mem[p].next && Reads(ch, data)
    ensures Seg(mem[p := ch], p, Cons(p, data, cs.tail), q) && NoDup(Cons(p, data, cs.tail))
    ensures Swaps(mem, Ptrs(cs), mem[p := ch], Ptrs(cs))
  {
    SegFrame(mem, mem[p := ch], ch.next, cs.tail, q);
    SwapsOne(mem, Ptrs(cs), p, ch);
  }

  /** Rewriting a chunk in the middle of a list, perhaps with another link. */
  lemma SegWrite(mem: Memory, p: Ptr, a: Cells, c: Cells, q: Ptr, ch: Chain, data: seq<byte>, b: Cells)
    requires Seg(mem, p, Cat(a, c), q) && NoDup(Cat(a, c)) && c.Cons?
    requires Reads(ch, data) && Seg(mem, ch.next, b, q)
    requires Ptrs(b) !! Ptrs(a) && c.p !in Ptrs(b)
    ensures Seg(mem[c.p := ch], p, Cat(a, Cons(c.p, data, b)), q)
  {
    SegCat(mem, p, a, c, q);
    CatParts(a, c);
    SegFrame(mem, mem[c.p := ch], p, a, c.p);
    SegFrame(mem, mem[c.p := ch], ch.next, b, q);
    SegCat(mem[c.p := ch], p, a, Cons(c.p, data, b), q);
  }

  /** Linking a second list behind a nonempty first one. */
  lemma SegAttach(mem: Memory, p: Ptr, a: Cells, q: Ptr, b: Cells, r: Ptr)
    requires Seg(mem, p, a, q) && a.Cons? && NoDup(Cat(a, b))
    requires Seg(mem, Head(b, r), b, r)
    ensures LastOf(a) in mem && mem[LastOf(a)].next == q
    ensures var mem' := mem[LastOf(a) := mem[LastOf(a)].(next := Head(b, r))];
      Seg(mem', p, Cat(a, b), r) && Swaps(mem, Ptrs(Cat(a, b)), mem', Ptrs(Cat(a, b)))
  {
    var front, d := SplitLast(a);
    var c := Cons(LastOf(a), d, Nil);
    SegCat(mem, p, front, c, q);
    CatParts(front, c);
    CatParts(a, b);
    LastIn(a);
    var ch := mem[LastOf(a)].(next := Head(b, r));
    var mem' := mem[LastOf(a) := ch];
    SegFrame(mem, mem', p, front, LastOf(a));
    SegFrame(mem, mem', Head(b, r), b, r);
    CatAssoc(front, c, b);
    SegCat(mem', p, front, Cons(LastOf(a), d, b), r);
    SwapsOne(mem, Ptrs(Cat(a, b)), LastOf(a), ch);
  }
}
