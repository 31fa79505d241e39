/** Runs of queue operations over any number of evbuffers. */
module EvRuns {
  import opened Segments
  import opened EvBuffers
  import opened EvQueue
  import opened EvPullup
  import opened EvSplice

  // ----- what the operations mean for plain byte strings

  datatype Op =
    | OpAdd(b: nat, bytes: seq<byte>)
    | OpPrepend(b: nat, bytes: seq<byte>)
    | OpDrain(b: nat, n: nat)
    | OpCopyout(b: nat, n: nat)
    | OpRemove(b: nat, n: nat)
    | OpPullup(b: nat, size: int)
    | OpAddBuffer(b: nat, from: nat)
    | OpPrependBuffer(b: nat, from: nat)
    | OpRemoveBuffer(b: nat, from: nat, n: nat)

  predicate InRange(op: Op, count: nat) {
    op.b < count && (op.OpAddBuffer? || op.OpPrependBuffer? || op.OpRemoveBuffer? ==> op.from < count)
  }

  predicate Single(op: Op) {
    !op.OpAddBuffer? && !op.OpPrependBuffer? && !op.OpRemoveBuffer?
  }

  /** What an operation on one buffer makes of its string. */
  function Changing(t: seq<byte>, op: Op): seq<byte> {
    match op
    case OpAdd(_, bytes) => t + bytes
    case OpPrepend(_, bytes) => bytes + t
    case OpDrain(_, n) => t[Min(n, |t|)..]
    case OpRemove(_, n) => t[Min(n, |t|)..]
    case _ => t
  }

  /** What it returns. */
  function Returning(t: seq<byte>, op: Op): seq<byte> {
    if op.OpCopyout? || op.OpRemove? then t[..Min(op.n, |t|)] else []
  }

  /** How much of the other buffer's string u moves. */
  function Moving(u: seq<byte>, op: Op): nat {
    if op.OpRemoveBuffer? then Min(op.n, |u|) else |u|
  }

  /** What an operation on two buffers makes of the first one's string. */
  function Joining(t: seq<byte>, u: seq<byte>, op: Op): seq<byte> {
    if op.OpPrependBuffer? then u + t else t + u[..Moving(u, op)]
  }

  /** What an operation does to the strings. */
  function After(s: seq<seq<byte>>, op: Op): (r: seq<seq<byte>>)
    requires InRange(op, |s|)
    ensures |r| == |s|
  {
    if Single(op) then s[op.b := Changing(s[op.b], op)]
    else if op.b == op.from then s
    else s[op.b := Joining(s[op.b], s[op.from], op)][op.from := s[op.from][Moving(s[op.from], op)..]]
  }

  /** What an operation returns. */
  function Output(s: seq<seq<byte>>, op: Op): seq<byte>
    requires InRange(op, |s|)
  {
    if Single(op) then Returning(s[op.b], op) else []
  }

  // ----- many buffers

  /** Distinct buffers over one memory that share no chunk, each of them sound. */
  ghost predicate Sound(heap: Heap, bufs: seq<EvBuffer>)
    reads heap, bufs
  {
    && (forall i :: 0 <= i < |bufs| ==>
          bufs[i].heap == heap && bufs[i].Valid() && bufs[i].Tight() && bufs[i].Settled())
    && (forall i, j :: 0 <= i < j < |bufs| ==> bufs[i] != bufs[j] && bufs[i].Own() !! bufs[j].Own())
  }

  /** A buffer's fields at some time. */
  datatype Fields = Fields(heap: Heap, first: Ptr, last: Ptr, lwd: Slot, totalLen: nat, added: nat, deleted: nat,
                           settled: nat, data: Cells, spare: Cells)

  ghost function FieldsOf(buf: EvBuffer): Fields
    reads buf
  {
    Fields(buf.heap, buf.first, buf.last, buf.lastWithDatap, buf.totalLen, buf.nAddForCb, buf.nDelForCb,
           buf.settledLen, buf.data, buf.spare)
  }

  ghost function AllFields(bufs: seq<EvBuffer>): (s: seq<Fields>)
    reads bufs
    ensures |s| == |bufs| && forall i :: 0 <= i < |bufs| ==> s[i] == FieldsOf(bufs[i])
  {
    seq(|bufs|, i requires 0 <= i < |bufs| reads bufs => FieldsOf(bufs[i]))
  }

  /** The bytes of each buffer. */
  ghost function Strings(fs: seq<Fields>): (s: seq<seq<byte>>)
    ensures |s| == |fs| && forall i :: 0 <= i < |fs| ==> s[i] == Flat(fs[i].data)
  {
    seq(|fs|, i requires 0 <= i < |fs| => Flat(fs[i].data))
  }

  ghost function Contents(bufs: seq<EvBuffer>): (s: seq<seq<byte>>)
    reads bufs
    ensures |s| == |bufs|
  {
    Strings(AllFields(bufs))
  }

  /** The chunks of each buffer. */
  ghost function Owns(fs: seq<Fields>): (s: seq<set<Ptr>>)
    ensures |s| == |fs| && forall i :: 0 <= i < |fs| ==> s[i] == Ptrs(Cat(fs[i].data, fs[i].spare))
  {
    seq(|fs|, i requires 0 <= i < |fs| => Ptrs(Cat(fs[i].data, fs[i].spare)))
  }

  /** All of the sets but number a and b. */
  ghost function UnionBut(owns: seq<set<Ptr>>, a: int, b: int, n: nat): set<Ptr>
    requires n <= |owns|
  {
    if n == 0 then {} else UnionBut(owns, a, b, n - 1) + if n - 1 == a || n - 1 == b then {} else owns[n - 1]
  }

  ghost function Union(owns: seq<set<Ptr>>): set<Ptr> {
    UnionBut(owns, -1, -1, |owns|)
  }

  /** The chunks of all buffers. */
  ghost function Owned(bufs: seq<EvBuffer>): set<Ptr>
    reads bufs
  {
    Union(Owns(AllFields(bufs)))
  }

  lemma {:induction false} UnionParts(owns: seq<set<Ptr>>, a: nat, b: nat, n: nat)
    requires a < |owns| && b < |owns| && n <= |owns|
    ensures UnionBut(owns, -1, -1, n) == UnionBut(owns, a, b, n) +
      (if a < n then owns[a] else {}) + (if b < n then owns[b] else {})
  {
    if n > 0 {
      UnionParts(owns, a, b, n - 1);
    }
  }

  lemma {:induction false} UnionSame(owns: seq<set<Ptr>>, owns': seq<set<Ptr>>, a: nat, b: nat, n: nat)
    requires n <= |owns| == |owns'| && forall i :: 0 <= i < |owns| && i != a && i != b ==> owns'[i] == owns[i]
    ensures UnionBut(owns', a, b, n) == UnionBut(owns, a, b, n)
  {
    if n > 0 {
      UnionSame(owns, owns', a, b, n - 1);
    }
  }

  /** A change of the chunks of two buffers, among the chunks of all. */
  lemma SwapsAmong(mem: Memory, owns: seq<set<Ptr>>, mem': Memory, owns': seq<set<Ptr>>, a: nat, b: nat)
    requires a < |owns| == |owns'| && b < |owns|
    requires forall i :: 0 <= i < |owns| && i != a && i != b ==> owns'[i] == owns[i]
    requires Swaps(mem, owns[a] + owns[b], mem', owns'[a] + owns'[b])
    ensures Swaps(mem, Union(owns), mem', Union(owns'))
  {
    var others := UnionBut(owns, a, b, |owns|);
    UnionParts(owns, a, b, |owns|);
    UnionParts(owns', a, b, |owns|);
    UnionSame(owns, owns', a, b, |owns|);
    assert mem - (others + owns[a] + owns[b]) == (mem - (owns[a] + owns[b])) - others;
    assert mem' - (others + owns'[a] + owns'[b]) == (mem' - (owns'[a] + owns'[b])) - others;
  }

  /** The fields of buffer `buf` are sound in memory mem. */
  ghost predicate FieldsSound(mem: Memory, heap: Heap, buf: EvBuffer, f: Fields) {
    && f.heap == heap && (f.lwd.FirstOf? ==> f.lwd.buf == buf)
    && Layout(mem, f.first, f.last, LinkOf(f.lwd), f.data, f.spare) && f.totalLen == |Flat(f.data)|
    && Compact(f.data, f.spare) && f.added == f.deleted == 0 && f.settled == f.totalLen
  }

  /** Sound, said of the fields. */
  ghost predicate AllSound(mem: Memory, heap: Heap, bufs: seq<EvBuffer>, fs: seq<Fields>) {
    && |bufs| == |fs|
    && (forall i :: 0 <= i < |bufs| ==> FieldsSound(mem, heap, bufs[i], fs[i]))
    && (forall i, j :: 0 <= i < j < |bufs| ==> bufs[i] != bufs[j] && Owns(fs)[i] !! Owns(fs)[j])
  }

  lemma SoundFields(heap: Heap, bufs: seq<EvBuffer>)
    ensures Sound(heap, bufs) <==> AllSound(heap.mem, heap, bufs, AllFields(bufs))
  {
    hide Layout, Compact, Flat;
    var fs := AllFields(bufs);
    forall i | 0 <= i < |bufs|
      ensures FieldsSound(heap.mem, heap, bufs[i], fs[i]) <==>
              bufs[i].heap == heap && bufs[i].Valid() && bufs[i].Tight() && bufs[i].Settled()
    {
    }
    assert forall i :: 0 <= i < |bufs| ==> Owns(fs)[i] == bufs[i].Own();
  }

  /** Only the buffers a and b, perhaps the same, changed. */
  ghost predicate OthersSame(fs: seq<Fields>, fs': seq<Fields>, a: nat, b: nat) {
    |fs'| == |fs| && a < |fs| && b < |fs| && forall k :: 0 <= k < |fs| && k != a && k != b ==> fs'[k] == fs[k]
  }

  /** If those two are sound then, so are all. */
  lemma StillSound(mem: Memory, mem': Memory, heap: Heap, bufs: seq<EvBuffer>, fs: seq<Fields>, fs': seq<Fields>, a: nat, b: nat)
    requires AllSound(mem, heap, bufs, fs) && OthersSame(fs, fs', a, b)
    requires FieldsSound(mem', heap, bufs[a], fs'[a]) && FieldsSound(mem', heap, bufs[b], fs'[b])
    requires a != b ==> Owns(fs')[a] !! Owns(fs')[b]
    requires Swaps(mem, Owns(fs)[a] + Owns(fs)[b], mem', Owns(fs')[a] + Owns(fs')[b])
    ensures AllSound(mem', heap, bufs, fs') && Swaps(mem, Union(Owns(fs)), mem', Union(Owns(fs')))
  {
    hide Compact, Flat, Layout, Swaps, Union;
    forall k | 0 <= k < |bufs| && k != a && k != b
      ensures FieldsSound(mem', heap, bufs[k], fs'[k]) && Owns(fs')[k] !! Owns(fs')[a] + Owns(fs')[b]
    {
      LayoutSwaps(mem, Owns(fs)[a] + Owns(fs)[b], mem', Owns(fs')[a] + Owns(fs')[b],
                  fs[k].first, fs[k].last, LinkOf(fs[k].lwd), fs[k].data, fs[k].spare);
    }
    SwapsAmong(mem, Owns(fs), mem', Owns(fs'), a, b);
  }

  // ----- what callbacks are told

  /** Each report starts from the length that the reports before it lead to, and
      all of them lead from 0 to `end`. */
  ghost predicate Ledger(reports: seq<CbInfo>, end: int) {
    if reports == [] then end == 0
    else
      var r := reports[|reports| - 1];
      r.origSize + r.nAdded - r.nDeleted == end && Ledger(reports[..|reports| - 1], r.origSize)
  }

  lemma LedgerReport(reports: seq<CbInfo>, installed: bool, orig: int, added: nat, deleted: nat)
    ensures installed && Ledger(reports, orig) ==>
      Ledger(reports + Report(installed, orig, added, deleted), orig + added - deleted)
  {
    if added != 0 || deleted != 0 {
      var r := CbInfo(orig, added, deleted);
      assert (reports + [r])[..|reports|] == reports;
    } else {
      assert reports + [] == reports;
    }
  }

  /** What the callbacks of a buffer were told adds up to its length. */
  ghost predicate Balanced(buf: EvBuffer)
    reads buf
  {
    buf.hasCallbacks ==> Ledger(buf.reports, buf.totalLen)
  }

  lemma LedgerEnd(reports: seq<CbInfo>, a: int, b: int)
    requires Ledger(reports, a) && Ledger(reports, b)
    ensures a == b
  {
  }

  /** evbuffer_prepend keeps the books exactly if the bytes fit in front of the
      first chunk's window. */
  lemma PrependLedger(reports: seq<CbInfo>, len: nat, n: nat, room: nat)
    requires Ledger(reports, len)
    ensures var counted := Min(n, room);
      Ledger(reports + Report(true, len + n - counted, counted, 0), len + n) <==> n <= room
  {
    var counted := Min(n, room);
    if counted == 0 {
      assert reports + [] == reports;
      if Ledger(reports, len + n) {
        LedgerEnd(reports, len, len + n);
      }
    } else {
      var r := CbInfo(len + n - counted, counted, 0);
      assert (reports + [r])[..|reports|] == reports;
      if Ledger(reports, r.origSize) {
        LedgerEnd(reports, len, r.origSize);
      }
    }
  }

  /** A prepend that does not fit in front of the first chunk's window. */
  ghost predicate ShortPrepend(buf: EvBuffer, op: Op)
    reads buf, buf.heap
  {
    op.OpPrepend? && PrependRoom(buf.heap.mem, buf.first, |op.bytes|) < |op.bytes|
  }

  ghost predicate AllBalanced(bufs: seq<EvBuffer>)
    reads bufs
  {
    forall i :: 0 <= i < |bufs| ==> Balanced(bufs[i])
  }

  // ----- runs

  /** Between operations. */
  ghost predicate Idle(buf: EvBuffer)
    reads buf, buf.heap
  {
    buf.Valid() && buf.Tight() && buf.Settled()
  }

  /** What it makes of the strings. */
  lemma StringsAfter(fs: seq<Fields>, fs': seq<Fields>, op: Op)
    requires InRange(op, |fs|) && OthersSame(fs, fs', op.b, if Single(op) then op.b else op.from)
    requires var t := Flat(fs[op.b].data);
      if Single(op) then Flat(fs'[op.b].data) == Changing(t, op)
      else if op.b == op.from then Flat(fs'[op.b].data) == t
      else
        var u := Flat(fs[op.from].data);
        Flat(fs'[op.b].data) == Joining(t, u, op) && Flat(fs'[op.from].data) == u[Moving(u, op)..]
    ensures Strings(fs') == After(Strings(fs), op)
  {
    hide Changing, Joining, Moving, Flat;
  }

  /** What an operation on the buffers a and b makes of all of them. */
  lemma AllAfter(mem: Memory, heap: Heap, bufs: seq<EvBuffer>, fs: seq<Fields>, a: nat, b: nat)
    requires AllSound(mem, heap, bufs, fs) && OthersSame(fs, AllFields(bufs), a, b)
    requires Idle(bufs[a]) && Idle(bufs[b]) && bufs[a].heap == bufs[b].heap == heap
    requires a != b ==> bufs[a].Own() !! bufs[b].Own()
    requires Swaps(mem, Owns(fs)[a] + Owns(fs)[b], heap.mem, bufs[a].Own() + bufs[b].Own())
    ensures Sound(heap, bufs) && Swaps(mem, Union(Owns(fs)), heap.mem, Owned(bufs))
  {
    hide Layout, Compact, Flat, Swaps, Union;
    SoundFields(heap, bufs);
    StillSound(mem, heap.mem, heap, bufs, fs, AllFields(bufs), a, b);
  }

  /** The operations that add bytes of the caller's. The books of an installed
      callback are right afterwards exactly unless a prepend does not fit. */
  method Lengthen(buf: EvBuffer, op: Op)
    requires Idle(buf) && (op.OpAdd? || op.OpPrepend?)
    modifies buf, buf.heap
    ensures Idle(buf) && Swaps(old(buf.heap.mem), old(buf.Own()), buf.heap.mem, buf.Own())
    ensures buf.Bytes() == Changing(old(buf.Bytes()), op)
    ensures old(Balanced(buf)) ==> (Balanced(buf) <==> !(buf.hasCallbacks && old(ShortPrepend(buf, op))))
  {
    LedgerReport(buf.reports, buf.hasCallbacks, buf.totalLen, |op.bytes|, 0);
    if op.OpAdd? {
      var _ := Add(buf, op.bytes);
    } else {
      if buf.hasCallbacks && Balanced(buf) {
        PrependLedger(buf.reports, buf.totalLen, |op.bytes|, PrependRoom(buf.heap.mem, buf.first, |op.bytes|));
      }
      Prepend(buf, op.bytes);
    }
  }

  /** One operation on one buffer. */
  method OnOne(buf: EvBuffer, op: Op) returns (out: seq<byte>)
    requires Idle(buf) && Single(op)
    modifies buf, buf.heap
    ensures Idle(buf) && Swaps(old(buf.heap.mem), old(buf.Own()), buf.heap.mem, buf.Own())
    ensures buf.Bytes() == Changing(old(buf.Bytes()), op) && out == Returning(old(buf.Bytes()), op)
    ensures old(Balanced(buf)) && !old(ShortPrepend(buf, op)) ==> Balanced(buf)
  {
    out := [];
    if op.OpDrain? {
      LedgerReport(buf.reports, buf.hasCallbacks, buf.totalLen, 0, Min(op.n, buf.totalLen));
      Drain(buf, op.n);
    } else if op.OpCopyout? {
      out := Copyout(buf, op.n);
    } else if op.OpRemove? {
      LedgerReport(buf.reports, buf.hasCallbacks, buf.totalLen, 0, Min(op.n, buf.totalLen));
      out := Remove(buf, op.n);
    } else if op.OpPullup? {
      var _ := Pullup(buf, op.size);
    } else {
      Lengthen(buf, op);
    }
  }

  /** One operation on two buffers. */
  method OnTwo(buf: EvBuffer, from: EvBuffer, op: Op)
    requires Idle(buf) && Idle(from) && Apart(buf, from) && !Single(op)
    modifies buf, from, buf.heap
    ensures Idle(buf) && Idle(from) && Apart(buf, from)
    ensures Swaps(old(buf.heap.mem), old(buf.Own() + from.Own()), buf.heap.mem, buf.Own() + from.Own())
    ensures buf.Bytes() == old(Joining(buf.Bytes(), from.Bytes(), op))
    ensures from.Bytes() == old(from.Bytes()[Moving(from.Bytes(), op)..])
    ensures old(Balanced(buf)) ==> Balanced(buf)
    ensures old(Balanced(from)) ==> Balanced(from)
  {
    ghost var n := Moving(from.Bytes(), op);
    LedgerReport(buf.reports, buf.hasCallbacks, buf.totalLen, n, 0);
    LedgerReport(from.reports, from.hasCallbacks, from.totalLen, 0, n);
    Whole(buf.Bytes(), from.Bytes());
    match op {
      case OpAddBuffer(_, _) =>
        AddBuffer(buf, from);
      case OpPrependBuffer(_, _) =>
        PrependBuffer(buf, from);
      case OpRemoveBuffer(_, _, k) =>
        var _, _ := RemoveBuffer(from, buf, k);
    }
  }

  lemma Whole(t: seq<byte>, u: seq<byte>)
    ensures u[..|u|] == u && u[|u|..] == [] && u[0..] == u && u[..0] == [] && t + [] == t && [] + t == t
  {
  }

  /** A buffer with itself: nothing happens. */
  method OnSame(buf: EvBuffer, op: Op)
    requires Idle(buf) && !Single(op)
    modifies buf, buf.heap
    ensures Idle(buf) && unchanged(buf)
    ensures Swaps(old(buf.heap.mem), old(buf.Own()), buf.heap.mem, buf.Own())
  {
    match op {
      case OpAddBuffer(_, _) =>
        AddBuffer(buf, buf);
      case OpPrependBuffer(_, _) =>
        PrependBuffer(buf, buf);
      case OpRemoveBuffer(_, _, k) =>
        var _, _ := RemoveBuffer(buf, buf, k);
    }
    assert buf.Own() + buf.Own() == buf.Own();
  }

  method DoOne(heap: Heap, bufs: seq<EvBuffer>, op: Op) returns (out: seq<byte>)
    requires Sound(heap, bufs) && InRange(op, |bufs|) && (Single(op) || op.b == op.from)
    modifies heap, bufs
    ensures Sound(heap, bufs) && Contents(bufs) == After(old(Contents(bufs)), op)
    ensures out == Output(old(Contents(bufs)), op)
    ensures Swaps(old(heap.mem), old(Owned(bufs)), heap.mem, Owned(bufs))
    ensures old(AllBalanced(bufs)) && !old(ShortPrepend(bufs[op.b], op)) ==> AllBalanced(bufs)
  {
    hide Layout, Compact, Ledger, Union, Swaps, Changing, Returning, PrependRoom, Flat, AllSound, Balanced, After;
    var buf := bufs[op.b];
    ghost var fs := AllFields(bufs);
    SoundFields(heap, bufs);
    out := [];
    if Single(op) {
      out := OnOne(buf, op);
    } else {
      OnSame(buf, op);
    }
    assert buf.Own() + buf.Own() == buf.Own() && Owns(fs)[op.b] + Owns(fs)[op.b] == Owns(fs)[op.b];
    AllAfter(old(heap.mem), heap, bufs, fs, op.b, op.b);
    StringsAfter(fs, AllFields(bufs), op);
  }

  method DoTwo(heap: Heap, bufs: seq<EvBuffer>, op: Op)
    requires Sound(heap, bufs) && InRange(op, |bufs|) && !Single(op) && op.b != op.from
    modifies heap, bufs
    ensures Sound(heap, bufs) && Contents(bufs) == After(old(Contents(bufs)), op)
    ensures Swaps(old(heap.mem), old(Owned(bufs)), heap.mem, Owned(bufs))
    ensures old(AllBalanced(bufs)) ==> AllBalanced(bufs)
  {
    hide Layout, Compact, Ledger, Union, Swaps, Joining, Moving, Flat, AllSound, Balanced, After;
    var buf, from := bufs[op.b], bufs[op.from];
    assert Apart(buf, from);
    ghost var fs := AllFields(bufs);
    SoundFields(heap, bufs);
    OnTwo(buf, from, op);
    AllAfter(old(heap.mem), heap, bufs, fs, op.b, op.from);
    StringsAfter(fs, AllFields(bufs), op);
  }

  /** One operation; `short` says whether it was a prepend that did not fit. */
  method Do(heap: Heap, bufs: seq<EvBuffer>, op: Op) returns (out: seq<byte>, ghost short: bool)
    requires Sound(heap, bufs) && InRange(op, |bufs|)
    modifies heap, bufs
    ensures Sound(heap, bufs) && Contents(bufs) == After(old(Contents(bufs)), op)
    ensures out == Output(old(Contents(bufs)), op)
    ensures Swaps(old(heap.mem), old(Owned(bufs)), heap.mem, Owned(bufs))
    ensures short == old(ShortPrepend(bufs[op.b], op))
    ensures old(AllBalanced(bufs)) && !short ==> AllBalanced(bufs)
  {
    short := ShortPrepend(bufs[op.b], op);
    if Single(op) || op.b == op.from {
      out := DoOne(heap, bufs, op);
    } else {
      DoTwo(heap, bufs, op);
      out := [];
    }
  }

  predicate AllInRange(ops: seq<Op>, count: nat) {
    forall i :: 0 <= i < |ops| ==> InRange(ops[i], count)
  }

  /** The strings after the first n operations. */
  function AfterAll(s: seq<seq<byte>>, ops: seq<Op>, n: nat): (r: seq<seq<byte>>)
    requires AllInRange(ops, |s|) && n <= |ops|
    ensures |r| == |s|
  {
    if n == 0 then s else After(AfterAll(s, ops, n - 1), ops[n - 1])
  }

  /** What they return, one behind the other. */
  function OutputAll(s: seq<seq<byte>>, ops: seq<Op>, n: nat): seq<byte>
    requires AllInRange(ops, |s|) && n <= |ops|
  {
    if n == 0 then [] else OutputAll(s, ops, n - 1) + Output(AfterAll(s, ops, n - 1), ops[n - 1])
  }

  /** Any run: the buffers stay sound, hold what plain byte strings would, and the
      memory of others is not touched. The callbacks' books are right at the end if
      every prepend fitted; `short` says which did not. */
  method Run(heap: Heap, bufs: seq<EvBuffer>, ops: seq<Op>) returns (out: seq<byte>, ghost short: seq<bool>)
    requires Sound(heap, bufs) && AllInRange(ops, |bufs|)
    modifies heap, bufs
    ensures Sound(heap, bufs) && Contents(bufs) == AfterAll(old(Contents(bufs)), ops, |ops|)
    ensures out == OutputAll(old(Contents(bufs)), ops, |ops|)
    ensures Swaps(old(heap.mem), old(Owned(bufs)), heap.mem, Owned(bufs))
    ensures |short| == |ops| && forall i :: 0 <= i < |ops| && short[i] ==> ops[i].OpPrepend?
    ensures old(AllBalanced(bufs)) && true !in short ==> AllBalanced(bufs)
  {
    hide Sound, Owned, After, Output, Contents, Balanced;
    out, short := [], [];
    ghost var s := Contents(bufs);
    var i := 0;
    while i < |ops|
      invariant i <= |ops| && Sound(heap, bufs) && Contents(bufs) == AfterAll(s, ops, i)
      invariant out == OutputAll(s, ops, i)
      invariant Swaps(old(heap.mem), old(Owned(bufs)), heap.mem, Owned(bufs))
      invariant |short| == i && forall j :: 0 <= j < i && short[j] ==> ops[j].OpPrepend?
      invariant old(AllBalanced(bufs)) && true !in short ==> AllBalanced(bufs)
    {
      var r, b := Do(heap, bufs, ops[i]);
      out, short, i := out + r, short + [b], i + 1;
    }
  }

  // ----- a chain of buffers delivers what was added, in order

  /** The strings from lo to hi, the last one first. */
  ghost function Flow(s: seq<seq<byte>>, lo: nat, hi: nat): seq<byte>
    requires lo <= hi <= |s|
    decreases hi
  {
    if lo == hi then [] else s[hi - 1] + Flow(s, lo, hi - 1)
  }

  lemma {:induction false} FlowSplit(s: seq<seq<byte>>, lo: nat, mid: nat, hi: nat)
    requires lo <= mid <= hi <= |s|
    ensures Flow(s, lo, hi) == Flow(s, mid, hi) + Flow(s, lo, mid)
    decreases hi
  {
    if mid < hi {
      FlowSplit(s, lo, mid, hi - 1);
      Assoc(s[hi - 1], Flow(s, mid, hi - 1), Flow(s, lo, mid));
    } else {
      assert [] + Flow(s, lo, mid) == Flow(s, lo, mid);
    }
  }

  lemma {:induction false} FlowSame(s: seq<seq<byte>>, s': seq<seq<byte>>, lo: nat, hi: nat)
    requires lo <= hi <= |s| == |s'| && forall i :: lo <= i < hi ==> s[i] == s'[i]
    ensures Flow(s, lo, hi) == Flow(s', lo, hi)
    decreases hi
  {
    if lo < hi {
      FlowSame(s, s', lo, hi - 1);
    }
  }

  /** One string and those around it. */
  lemma FlowAt(s: seq<seq<byte>>, i: nat)
    requires i < |s|
    ensures Flow(s, 0, |s|) == Flow(s, i + 1, |s|) + s[i] + Flow(s, 0, i)
  {
    FlowSplit(s, 0, i + 1, |s|);
    Assoc(Flow(s, i + 1, |s|), s[i], Flow(s, 0, i));
  }

  /** Bytes enter at the first buffer, move from each buffer to the next one and
      leave at the last one. */
  ghost predicate Forward(op: Op, count: nat) {
    match op
    case OpAdd(b, _) => b == 0 < count
    case OpRemove(b, _) => b + 1 == count
    case OpPullup(b, _) => b < count
    case OpAddBuffer(b, from) => b == from + 1 < count
    case OpRemoveBuffer(b, from, _) => b == from + 1 < count
    case _ => false
  }

  ghost function Added(op: Op): seq<byte> {
    if op.OpAdd? then op.bytes else []
  }

  ghost function AddedAll(ops: seq<Op>, n: nat): seq<byte>
    requires n <= |ops|
  {
    if n == 0 then [] else AddedAll(ops, n - 1) + Added(ops[n - 1])
  }

  /** Moving from one buffer to the next one keeps the order. */
  lemma FlowMove(s: seq<seq<byte>>, i: nat, k: nat)
    requires i + 1 < |s| && k <= |s[i]|
    ensures Flow(s[i + 1 := s[i + 1] + s[i][..k]][i := s[i][k..]], 0, |s|) == Flow(s, 0, |s|)
  {
    var s' := s[i + 1 := s[i + 1] + s[i][..k]][i := s[i][k..]];
    FlowSplit(s, 0, i + 2, |s|);
    FlowSplit(s', 0, i + 2, |s|);
    FlowSame(s, s', i + 2, |s|);
    FlowSame(s, s', 0, i);
    assert s[i] == s[i][..k] + s[i][k..];
    assert s'[i + 1] + (s'[i] + Flow(s, 0, i)) == s[i + 1] + (s[i] + Flow(s, 0, i));
  }

  lemma FlowEnter(s: seq<seq<byte>>, bytes: seq<byte>)
    requires 0 < |s|
    ensures Flow(s[0 := s[0] + bytes], 0, |s|) == Flow(s, 0, |s|) + bytes
  {
    var t := s[0 := s[0] + bytes];
    FlowAt(s, 0);
    FlowAt(t, 0);
    FlowSame(s, t, 1, |s|);
    var f := Flow(s, 1, |s|);
    Neutral(f + s[0]);
    Neutral(f + (s[0] + bytes));
    Assoc(f, s[0], bytes);
  }

  lemma FlowLeave(s: seq<seq<byte>>, k: nat)
    requires 0 < |s| && k <= |s[|s| - 1]|
    ensures var b := |s| - 1; s[b][..k] + Flow(s[b := s[b][k..]], 0, |s|) == Flow(s, 0, |s|)
  {
    var b := |s| - 1;
    FlowSame(s, s[b := s[b][k..]], 0, b);
    assert s[b] == s[b][..k] + s[b][k..];
    Assoc(s[b][..k], s[b][k..], Flow(s, 0, b));
  }

  lemma Neutral(f: seq<byte>)
    ensures [] + f == f && f + [] == f
  {
  }

  lemma MoveStep(s: seq<seq<byte>>, op: Op)
    requires InRange(op, |s|) && Forward(op, |s|) && !Single(op)
    ensures Flow(After(s, op), 0, |s|) == Flow(s, 0, |s|)
  {
    hide Flow;
    var i, k := op.from, Moving(s[op.from], op);
    FlowMove(s, i, k);
    assert After(s, op) == s[i + 1 := s[i + 1] + s[i][..k]][i := s[i][k..]];
  }

  lemma EndStep(s: seq<seq<byte>>, op: Op)
    requires InRange(op, |s|) && Forward(op, |s|) && (op.OpAdd? || op.OpRemove?)
    ensures op.OpAdd? ==> Flow(After(s, op), 0, |s|) == Flow(s, 0, |s|) + op.bytes
    ensures op.OpRemove? ==> Returning(s[op.b], op) + Flow(After(s, op), 0, |s|) == Flow(s, 0, |s|)
  {
    if op.OpAdd? {
      FlowEnter(s, op.bytes);
      assert After(s, op) == s[0 := s[0] + op.bytes];
    } else {
      FlowLeave(s, Min(op.n, |s[op.b]|));
    }
  }

  lemma ForwardStep(s: seq<seq<byte>>, op: Op)
    requires InRange(op, |s|) && Forward(op, |s|)
    ensures Output(s, op) + Flow(After(s, op), 0, |s|) == Flow(s, 0, |s|) + Added(op)
  {
    Neutral(Flow(s, 0, |s|));
    Neutral(Flow(After(s, op), 0, |s|));
    if op.OpAdd? || op.OpRemove? {
      EndStep(s, op);
    } else if !Single(op) {
      MoveStep(s, op);
    } else {
      assert After(s, op) == s;
    }
  }

  /** However the operations interleave, what came out and what is still on its
      way is what was there and what was added, in order. */
  lemma {:induction false} Delivery(s: seq<seq<byte>>, ops: seq<Op>, n: nat)
    requires AllInRange(ops, |s|) && n <= |ops|
    requires forall i :: 0 <= i < |ops| ==> Forward(ops[i], |s|)
    ensures OutputAll(s, ops, n) + Flow(AfterAll(s, ops, n), 0, |s|) == Flow(s, 0, |s|) + AddedAll(ops, n)
    decreases n
  {
    hide Flow, After, Output, Added, Forward, InRange;
    if n == 0 {
      assert [] + Flow(s, 0, |s|) == Flow(s, 0, |s|) + [];
    } else {
      Delivery(s, ops, n - 1);
      var t, op := AfterAll(s, ops, n - 1), ops[n - 1];
      ForwardStep(t, op);
      Assoc(OutputAll(s, ops, n - 1), Output(t, op), Flow(After(t, op), 0, |s|));
      Assoc(OutputAll(s, ops, n - 1), Flow(t, 0, |s|), Added(op));
      Assoc(Flow(s, 0, |s|), AddedAll(ops, n - 1), Added(op));
    }
  }
}
