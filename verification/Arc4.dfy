/** The RC4 stream behind arc4random, and numbers below a bound without bias. */
module Arc4 {

  // ----- the state of the stream

  /** struct arc4_stream, with bytes as numbers below 256. */
  datatype Stream = Stream(i: nat, j: nat, s: seq<nat>)

  /** Every entry is a byte and no two are the same. */
  ghost predicate Permutation(s: seq<nat>) {
    && |s| == 256
    && (forall k :: 0 <= k < 256 ==> s[k] < 256)
    && (forall a, b :: 0 <= a < b < 256 ==> s[a] != s[b])
  }

  ghost predicate StreamOk(st: Stream) {
    st.i < 256 && st.j < 256 && Permutation(st.s)
  }

  function Swapped(s: seq<nat>, a: nat, b: nat): (r: seq<nat>)
    requires a < |s| && b < |s|
    ensures |r| == |s| && r[a] == s[b] && r[b] == s[a]
  {
    s[a := s[b]][b := s[a]]
  }

  lemma SwapPermutation(s: seq<nat>, a: nat, b: nat)
    requires Permutation(s) && a < 256 && b < 256
    ensures Permutation(Swapped(s, a, b))
    ensures Swapped(Swapped(s, a, b), a, b) == s
  {
  }

  /** The numbers below n. */
  ghost function Below(n: nat): (r: set<nat>)
    ensures |r| == n
    ensures forall v: nat :: v in r <==> v < n
  {
    if n == 0 then {} else
      var before := Below(n - 1);
      assert n - 1 !in before;
      before + {n - 1}
  }

  /** The first n entries. */
  ghost function Values(s: seq<nat>, n: nat): (r: set<nat>)
    requires n <= |s|
    ensures forall v :: v in r <==> v in s[..n]
  {
    if n == 0 then {} else assert s[..n] == s[..n - 1] + [s[n - 1]]; Values(s, n - 1) + {s[n - 1]}
  }

  lemma {:induction false} ValuesCount(s: seq<nat>, n: nat)
    requires Permutation(s) && n <= 256
    ensures |Values(s, n)| == n
  {
    if n > 0 {
      ValuesCount(s, n - 1);
      assert s[n - 1] !in s[..n - 1];
    }
  }

  lemma {:induction false} Subset(a: set<nat>, b: set<nat>)
    requires a <= b
    ensures |a| <= |b|
  {
    if a != {} {
      var x :| x in a;
      Subset(a - {x}, b - {x});
    }
  }

  /** A permutation holds every byte. */
  lemma EveryByte(s: seq<nat>, v: nat)
    requires Permutation(s) && v < 256
    ensures v in s
  {
    var seen := Values(s, 256);
    ValuesCount(s, 256);
    assert s[..256] == s;
    assert seen <= Below(256);
    hide Permutation;
    if v !in seen {
      Subset(seen, Below(256) - {v});
    }
  }

  // ----- arc4_getbyte

  function NextState(st: Stream): Stream
    requires st.i < 256 && |st.s| == 256 && forall k :: 0 <= k < 256 ==> st.s[k] < 256
  {
    var i := (st.i + 1) % 256;
    var j := (st.j + st.s[i]) % 256;
    Stream(i, j, Swapped(st.s, i, j))
  }

  function Output(st: Stream): nat
    requires st.i < 256 && st.j < 256 && |st.s| == 256 && forall k :: 0 <= k < 256 ==> st.s[k] < 256
  {
    NextState(st).s[(NextState(st).s[NextState(st).i] + NextState(st).s[NextState(st).j]) % 256]
  }

  /** The state before. */
  function Undone(st: Stream): Stream
    requires st.i < 256 && st.j < 256 && |st.s| == 256 && forall k :: 0 <= k < 256 ==> st.s[k] < 256
  {
    var s := Swapped(st.s, st.i, st.j);
    Stream((st.i + 255) % 256, (st.j + 256 - s[st.i]) % 256, s)
  }

  /** No two states lead to the same one: the stream never forgets anything. */
  lemma Reversible(st: Stream)
    requires StreamOk(st)
    ensures StreamOk(NextState(st)) && Undone(NextState(st)) == st
  {
    var i := (st.i + 1) % 256;
    var j := (st.j + st.s[i]) % 256;
    SwapPermutation(st.s, i, j);
    BackAndForth(st.i, 1);
    BackAndForth(st.j, st.s[i]);
    hide Permutation;
  }

  lemma BackAndForth(i: nat, x: nat)
    requires i < 256 && x < 256
    ensures ((i + x) % 256 + 256 - x) % 256 == i
  {
  }

  /** What a step does, in the program's own variables. */
  lemma Step(st: Stream)
    requires StreamOk(st)
    ensures StreamOk(NextState(st))
    ensures var i := (st.i + 1) % 256; var si := st.s[i]; var j := (st.j + si) % 256; var sj := st.s[j];
      && NextState(st) == Stream(i, j, Swapped(st.s, i, j)) && |Swapped(st.s, i, j)| == 256
      && Output(st) == Swapped(st.s, i, j)[(si + sj) % 256] && Output(st) < 256
  {
    hide Undone;
    Reversible(st);
    var i := (st.i + 1) % 256;
    var j := (st.j + st.s[i]) % 256;
    assert NextState(st).s[i] == st.s[j] && NextState(st).s[j] == st.s[i];
  }

  /** Every state comes from another one. */
  lemma Reachable(st: Stream)
    requires StreamOk(st)
    ensures StreamOk(Undone(st)) && NextState(Undone(st)) == st
  {
    SwapPermutation(st.s, st.i, st.j);
  }

  // ----- arc4_addrandom

  /** One round of the loop, with key byte b. */
  function Keyed(st: Stream, b: nat): Stream
    requires st.i < 256 && |st.s| == 256 && forall k :: 0 <= k < 256 ==> st.s[k] < 256
  {
    var i := (st.i + 1) % 256;
    var j := (st.j + st.s[i] + b) % 256;
    Stream(i, j, Swapped(st.s, i, j))
  }

  lemma KeyedOk(st: Stream, b: nat)
    requires StreamOk(st)
    ensures StreamOk(Keyed(st, b))
  {
    var i := (st.i + 1) % 256;
    SwapPermutation(st.s, i, (st.j + st.s[i] + b) % 256);
  }

  /** Different key bytes lead to different states. */
  lemma KeyMatters(st: Stream, a: nat, b: nat)
    requires StreamOk(st) && a < 256 && b < 256 && Keyed(st, a) == Keyed(st, b)
    ensures a == b
  {
  }

  /** The first n rounds. */
  ghost function Rounds(st: Stream, dat: seq<nat>, n: nat): (r: Stream)
    requires StreamOk(st) && dat != []
    ensures StreamOk(r)
  {
    if n == 0 then st
    else
      KeyedOk(Rounds(st, dat, n - 1), dat[(n - 1) % |dat|]);
      Keyed(Rounds(st, dat, n - 1), dat[(n - 1) % |dat|])
  }

  /** The state before a round with key byte b. */
  function Unkeyed(st: Stream, b: nat): Stream
    requires st.i < 256 && st.j < 256 && b < 256 && |st.s| == 256 && forall k :: 0 <= k < 256 ==> st.s[k] < 256
  {
    var s := Swapped(st.s, st.i, st.j);
    Stream((st.i + 255) % 256, (st.j + 512 - s[st.i] - b) % 256, s)
  }

  lemma KeyedReversible(st: Stream, b: nat)
    requires StreamOk(st) && b < 256
    ensures StreamOk(Keyed(st, b)) && Unkeyed(Keyed(st, b), b) == st
  {
    KeyedOk(st, b);
    SwapPermutation(st.s, (st.i + 1) % 256, (st.j + st.s[(st.i + 1) % 256] + b) % 256);
  }

  lemma NextRound(st: Stream, dat: seq<nat>, n: nat)
    requires StreamOk(st) && dat != []
    ensures StreamOk(Rounds(st, dat, n))
    ensures Rounds(st, dat, n + 1) == Keyed(Rounds(st, dat, n), dat[n % |dat|])
  {
    hide Keyed, StreamOk, Permutation;
  }

  lemma FirstPass(n: nat, len: nat)
    requires n < len
    ensures n % len == n
  {
  }

  /** Round m uses byte k only if m is k or at least a whole input later. */
  lemma NotUsedYet(m: nat, k: nat, len: nat)
    requires k < len && m < k + len && m != k
    ensures m % len != k
  {
    if m >= len {
      assert m % len == (m - len) % len == m - len;
    }
  }

  /** Two inputs of one length that differ in byte k lead to different states from
      round k + 1 on, until the byte is used again. */
  lemma {:induction false} OneByteMatters(st: Stream, d: seq<nat>, e: seq<nat>, k: nat, n: nat)
    requires StreamOk(st) && |d| == |e| && k < |d| && k < n <= k + |d|
    requires forall m :: 0 <= m < |d| ==> d[m] < 256 && e[m] < 256 && (d[m] == e[m] <==> m != k)
    ensures Rounds(st, d, n) != Rounds(st, e, n)
  {
    hide Keyed, Unkeyed, StreamOk, Rounds;
    var m := (n - 1) % |d|;
    NextRound(st, d, n - 1);
    NextRound(st, e, n - 1);
    if n - 1 == k {
      FirstPass(k, |d|);
      SameRounds(st, d, e, k);
      KeyedNeedsKey(Rounds(st, d, k), d[k], e[k]);
    } else {
      NotUsedYet(n - 1, k, |d|);
      OneByteMatters(st, d, e, k, n - 1);
      KeyedReversible(Rounds(st, d, n - 1), d[m]);
      KeyedReversible(Rounds(st, e, n - 1), d[m]);
    }
  }

  lemma KeyedNeedsKey(st: Stream, a: nat, b: nat)
    requires StreamOk(st) && a < 256 && b < 256 && a != b
    ensures Keyed(st, a) != Keyed(st, b)
  {
    if Keyed(st, a) == Keyed(st, b) {
      KeyMatters(st, a, b);
    }
  }

  lemma {:induction false} SameRounds(st: Stream, d: seq<nat>, e: seq<nat>, n: nat)
    requires StreamOk(st) && |d| >= n && |e| >= n && d != [] && e != []
    requires forall m :: 0 <= m < n ==> d[m] == e[m]
    ensures Rounds(st, d, n) == Rounds(st, e, n)
  {
    hide Keyed, StreamOk, Permutation;
    if n > 0 {
      SameRounds(st, d, e, n - 1);
      FirstPass(n - 1, |d|);
      FirstPass(n - 1, |e|);
      NextRound(st, d, n - 1);
      NextRound(st, e, n - 1);
    }
  }

  ghost function AddRandom(st: Stream, dat: seq<nat>): (r: Stream)
    requires StreamOk(st) && dat != []
    ensures StreamOk(r)
  {
    var r := Rounds(st.(i := (st.i + 255) % 256), dat, 256);
    r.(j := r.i)
  }

  /** arc4random_addrandom from position k on: a window of 256 bytes at a time. */
  ghost function AddWindows(st: Stream, dat: seq<nat>, k: nat): (r: Stream)
    requires StreamOk(st)
    ensures StreamOk(r)
    decreases |dat| - k
  {
    if k >= |dat| then st else AddWindows(AddRandom(st, dat[k..]), dat, k + 256)
  }

  /** The state before window w, which starts at position 256 * w. */
  ghost function BeforeWindow(st: Stream, dat: seq<nat>, w: nat): (r: Stream)
    requires StreamOk(st) && 256 * w < |dat|
    ensures StreamOk(r)
  {
    if w == 0 then st else AddRandom(BeforeWindow(st, dat, w - 1), dat[256 * (w - 1)..])
  }

  /** What is left to do before a window. */
  lemma {:induction false} WindowsFrom(st: Stream, dat: seq<nat>, w: nat)
    requires StreamOk(st) && 256 * w < |dat|
    ensures AddWindows(st, dat, 0) == AddWindows(BeforeWindow(st, dat, w), dat, 256 * w)
  {
    hide AddRandom, StreamOk;
    if w > 0 {
      WindowsFrom(st, dat, w - 1);
    }
  }

  /** Every byte of the input is the key byte of a round of some window: with st' the
      state before that window, round k % 256 turns the state by byte k, and the
      window's result is what the rest of the input goes on from. */
  lemma EveryByteAbsorbed(st: Stream, dat: seq<nat>, k: nat)
    requires StreamOk(st) && k < |dat|
    ensures var w, n := k / 256, k % 256;
      var st' := BeforeWindow(st, dat, w);
      var start := st'.(i := (st'.i + 255) % 256);
      && AddWindows(st, dat, 0) == AddWindows(AddRandom(st', dat[256 * w..]), dat, 256 * w + 256)
      && StreamOk(start) && StreamOk(Rounds(start, dat[256 * w..], n))
      && Rounds(start, dat[256 * w..], n + 1) == Keyed(Rounds(start, dat[256 * w..], n), dat[k])
      && AddRandom(st', dat[256 * w..]) == var r := Rounds(start, dat[256 * w..], 256); r.(j := r.i)
  {
    hide Keyed, Rounds, Permutation, BeforeWindow, AddRandom, StreamOk, AddWindows;
    var w, n := k / 256, k % 256;
    assert k == 256 * w + n;
    var st' := BeforeWindow(st, dat, w);
    WindowsFrom(st, dat, w);
    WindowStep(st', dat, 256 * w);
    WindowRound(st', dat[256 * w..], n);
  }

  lemma WindowStep(st: Stream, dat: seq<nat>, k: nat)
    requires StreamOk(st) && k < |dat|
    ensures AddWindows(st, dat, k) == AddWindows(AddRandom(st, dat[k..]), dat, k + 256)
  {
    hide AddRandom, StreamOk;
  }

  lemma WindowRound(st: Stream, dat: seq<nat>, n: nat)
    requires StreamOk(st) && n < |dat|
    ensures var start := st.(i := (st.i + 255) % 256);
      && StreamOk(start) && StreamOk(Rounds(start, dat, n))
      && Rounds(start, dat, n + 1) == Keyed(Rounds(start, dat, n), dat[n])
      && AddRandom(st, dat) == var r := Rounds(start, dat, 256); r.(j := r.i)
  {
    hide Keyed, Rounds, Permutation;
    FirstPass(n, |dat|);
    NextRound(st.(i := (st.i + 255) % 256), dat, n);
  }

  // ----- what the reset of j loses

  /** The permutation that arc4_init leaves. */
  function Identity(): (s: seq<nat>)
    ensures |s| == 256 && forall n :: 0 <= n < 256 ==> s[n] == n
  {
    seq(256, n => n)
  }

  /** A window that keeps the identity for 254 rounds, and ends in x and 129. */
  function Window(x: nat): (s: seq<nat>)
    ensures |s| == 256 && s[254] == x && s[255] == 129 && s[0] == 0
    ensures forall n :: 0 < n < 254 ==> s[n] == (257 - n) % 256
  {
    seq(256, n => if n == 254 then x else if n == 255 then 129 else if n == 0 then 0 else (257 - n) % 256)
  }

  lemma KeyedIdentity(n: nat)
    requires 0 < n < 254
    ensures Keyed(Stream(n - 1, n - 1, Identity()), (257 - n) % 256) == Stream(n, n, Identity())
  {
    hide Identity;
    var s := Identity();
    assert s[n := s[n]][n := s[n]] == s;
    assert (n - 1 + n + (257 - n) % 256) % 256 == n;
  }

  lemma {:induction false} IdentityRounds(x: nat, n: nat)
    requires 0 < n <= 254
    ensures StreamOk(Stream(255, 0, Identity()))
    ensures Rounds(Stream(255, 0, Identity()), Window(x), n) == Stream(n - 1, n - 1, Identity())
  {
    hide Rounds, Identity, Window;
    var st, dat, s := Stream(255, 0, Identity()), Window(x), Identity();
    NextRound(st, dat, n - 1);
    if n > 1 {
      IdentityRounds(x, n - 1);
      KeyedIdentity(n - 1);
    } else {
      NoRounds(st, dat);
      assert s[0 := s[0]][0 := s[0]] == s;
    }
    hide Keyed, StreamOk, Permutation;
  }

  lemma NoRounds(st: Stream, dat: seq<nat>)
    requires StreamOk(st) && dat != []
    ensures Rounds(st, dat, 0) == st
  {
  }

  lemma LastRounds(x: nat, a: nat, b: nat)
    requires (x == 4 && a == 255 && b == 126) || (x == 131 && a == 126 && b == 254)
    ensures StreamOk(Stream(255, 0, Identity()))
    ensures Rounds(Stream(255, 0, Identity()), Window(x), 256) == Stream(255, b, Swapped(Swapped(Identity(), 254, a), 255, b))
  {
    hide Rounds, Identity, Window;
    var st, dat, s := Stream(255, 0, Identity()), Window(x), Identity();
    IdentityRounds(x, 254);
    NextRound(st, dat, 254);
    NextRound(st, dat, 255);
    hide StreamOk, Permutation;
    assert Keyed(Stream(253, 253, s), x) == Stream(254, a, Swapped(s, 254, a));
    assert Swapped(s, 254, a)[255] == if a == 255 then 254 else 255;
  }

  lemma SameSwaps(s: seq<nat>)
    requires |s| == 256
    ensures Swapped(Swapped(s, 254, 255), 255, 126) == Swapped(Swapped(s, 254, 126), 255, 254)
  {
  }

  /** Two windows that differ in byte 254 alone leave the same state behind: their
      last rounds differ in j, which is then reset. */
  lemma ResetMerges()
    ensures StreamOk(Stream(0, 0, Identity())) && Window(4) != Window(131)
    ensures AddRandom(Stream(0, 0, Identity()), Window(4)) == AddRandom(Stream(0, 0, Identity()), Window(131))
  {
    hide Rounds, Identity, Window;
    LastRounds(4, 255, 126);
    LastRounds(131, 126, 254);
    SameSwaps(Identity());
    hide Swapped, Permutation;
    assert Window(4)[254] != Window(131)[254];
  }

  /** The last byte of a window is not lost: the last swap puts different entries in
      place i. */
  lemma LastByteMatters(st: Stream, d: seq<nat>, e: seq<nat>)
    requires StreamOk(st) && |d| >= 256 && |e| >= 256
    requires forall m :: 0 <= m < 255 ==> d[m] == e[m]
    requires d[255] < 256 && e[255] < 256 && d[255] != e[255]
    ensures AddRandom(st, d) != AddRandom(st, e)
  {
    hide Keyed, Rounds, Permutation;
    var start := st.(i := (st.i + 255) % 256);
    SameRounds(start, d, e, 255);
    FirstPass(255, |d|);
    FirstPass(255, |e|);
    NextRound(start, d, 255);
    NextRound(start, e, 255);
    KeyedDiffers(Rounds(start, d, 255), d[255], e[255]);
  }

  lemma KeyedDiffers(st: Stream, a: nat, b: nat)
    requires StreamOk(st) && a < 256 && b < 256 && a != b
    ensures Keyed(st, a).s != Keyed(st, b).s
  {
    var i := (st.i + 1) % 256;
    var x, y := (st.j + st.s[i] + a) % 256, (st.j + st.s[i] + b) % 256;
    assert x != y;
    SwapAt(st.s, i, x);
    SwapAt(st.s, i, y);
    assert st.s[x] != st.s[y];
  }

  lemma SwapAt(s: seq<nat>, i: nat, j: nat)
    requires i < |s| && j < |s|
    ensures Swapped(s, i, j)[i] == s[j]
  {
  }

  class Generator {
    var i: nat
    var j: nat
    const s: array<nat>

    ghost function View(): Stream
      reads this, s
    {
      Stream(i, j, s[..])
    }

    ghost predicate Valid()
      reads this, s
    {
      s.Length == 256 && StreamOk(View())
    }

    /** arc4_init */
    constructor ()
      ensures Valid() && fresh(s) && View() == Stream(0, 0, seq(256, n => n))
    {
      s := new nat[256];
      i, j := 0, 0;
      new;
      var n := 0;
      while n < 256
        invariant n <= 256 && i == j == 0 && fresh(s) && s.Length == 256
        invariant forall k :: 0 <= k < n ==> s[k] == k
      {
        s[n] := n;
        n := n + 1;
      }
      assert s[..] == seq(256, n => n);
    }

    /** arc4_getbyte */
    method GetByte() returns (b: nat)
      requires Valid()
      modifies this`i, this`j, s
      ensures Valid() && View() == NextState(old(View())) && b == Output(old(View())) && b < 256
      ensures i == (old(i) + 1) % 256 && j == (old(j) + old(s[..])[i]) % 256 && b == s[(s[i] + s[j]) % 256]
    {
      ghost var st := View();
      Step(st);
      hide StreamOk, Permutation, NextState, Output, Undone;
      i := (i + 1) % 256;
      var si := s[i];
      j := (j + si) % 256;
      var sj := s[j];
      s[i] := sj;
      s[j] := si;
      assert s[..] == Swapped(st.s, i, j);
      b := s[(si + sj) % 256];
    }

    /** arc4_getword */
    method GetWord() returns (val: nat)
      requires Valid()
      modifies this`i, this`j, s
      ensures Valid() && val < 0x1_0000_0000
      ensures var st := old(View());
        && StreamOk(st) && StreamOk(NextState(st)) && StreamOk(NextState(NextState(st)))
        && StreamOk(NextState(NextState(NextState(st))))
        && View() == NextState(NextState(NextState(NextState(st))))
        && val == Output(st) * 0x100_0000 + Output(NextState(st)) * 0x1_0000 +
                  Output(NextState(NextState(st))) * 0x100 + Output(NextState(NextState(NextState(st))))
    {
      hide NextState, Output, Permutation;
      var b0 := GetByte();
      var b1 := GetByte();
      var b2 := GetByte();
      var b3 := GetByte();
      val := b0 * 0x100_0000 + b1 * 0x1_0000 + b2 * 0x100 + b3;
    }

    /** arc4_addrandom */
    method AddRandomBytes(dat: seq<nat>)
      requires Valid() && dat != []
      modifies this`i, this`j, s
      ensures Valid() && View() == AddRandom(old(View()), dat) && j == i
    {
      i := (i + 255) % 256;
      ghost var st := View();
      var n := 0;
      while n < 256
        invariant n <= 256 && Valid() && StreamOk(st) && View() == Rounds(st, dat, n)
      {
        OneRound(dat[n % |dat|]);
        n := n + 1;
      }
      j := i;
    }

    method OneRound(b: nat)
      requires Valid()
      modifies this`i, this`j, s
      ensures Valid() && View() == Keyed(old(View()), b)
      ensures i == (old(i) + 1) % 256 && j == (old(j) + old(s[..])[i] + b) % 256
      ensures s[..] == old(s[..])[i := old(s[..])[j]][j := old(s[..])[i]]
    {
      KeyedOk(View(), b);
      i := (i + 1) % 256;
      var si := s[i];
      j := (j + si + b) % 256;
      s[i] := s[j];
      s[j] := si;
      assert s[..] == Swapped(old(s[..]), i, j);
    }

    /** arc4random_addrandom, once the stream is initialised. */
    method AddAll(dat: seq<nat>)
      requires Valid()
      modifies this`i, this`j, s
      ensures Valid() && View() == AddWindows(old(View()), dat, 0)
    {
      var k := 0;
      while k < |dat|
        invariant Valid() && AddWindows(View(), dat, k) == AddWindows(old(View()), dat, 0)
      {
        AddRandomBytes(dat[k..]);
        k := k + 256;
      }
    }
  }

  // ----- arc4random_uniform

  const WORDS := 0x1_0000_0000

  /** The threshold as the program computes it, in 32-bit arithmetic. */
  function Threshold(u: nat): nat
    requires 2 <= u < WORDS
  {
    if u > 0x8000_0000 then (1 + (0xffff_ffff - u)) % WORDS
    else ((0xffff_ffff - u * 2 % WORDS) + 1) % WORDS % u
  }

  lemma TimesLess(a: nat, b: nat, u: nat)
    requires a < b
    ensures a * u + u <= b * u
  {
    assert (a + 1) * u <= b * u;
  }

  lemma DivModIs(x: nat, u: nat, q: nat, r: nat)
    requires x == q * u + r && r < u
    ensures x / u == q && x % u == r
  {
    var d := x / u;
    assert x == d * u + x % u;
    if d != q {
      TimesLess(if d < q then d else q, if d < q then q else d, u);
    }
  }

  lemma BigBound(u: nat)
    requires 0x8000_0000 < u < WORDS
    ensures Threshold(u) == WORDS - u == WORDS % u
  {
    DivModIs(WORDS, u, 1, WORDS - u);
  }

  lemma SmallBound(u: nat)
    requires 2 <= u < 0x8000_0000
    ensures Threshold(u) == WORDS % u
  {
    var q, r := WORDS / u, WORDS % u;
    assert WORDS == q * u + r;
    TimesLess(1, 2, u);
    if q < 2 {
      TimesLess(q, 2, u);
    }
    assert WORDS - 2 * u == (q - 2) * u + r;
    DivModIs(WORDS - 2 * u, u, q - 2, r);
    DivModIs(u * 2, WORDS, 0, u * 2);
    DivModIs(WORDS - 2 * u, WORDS, 0, WORDS - 2 * u);
  }

  /** The threshold is 2^32 modulo the bound, in both branches, and more than half
      of all words are accepted. */
  lemma ThresholdIs(u: nat)
    requires 2 <= u < WORDS
    ensures Threshold(u) == WORDS % u < u
    ensures 2 * (WORDS - Threshold(u)) > WORDS
  {
    if u > 0x8000_0000 {
      BigBound(u);
    } else if u < 0x8000_0000 {
      SmallBound(u);
    } else {
      DivModIs(WORDS, u, 2, 0);
    }
  }

  /** How many numbers from lo on, below hi, have residue v. */
  ghost function Hits(lo: nat, hi: nat, u: nat, v: nat): nat
    requires lo <= hi && 0 < u
    decreases hi
  {
    if lo == hi then 0 else Hits(lo, hi - 1, u, v) + if (hi - 1) % u == v then 1 else 0
  }

  lemma {:induction false} HitsSplit(lo: nat, mid: nat, hi: nat, u: nat, v: nat)
    requires lo <= mid <= hi && 0 < u
    ensures Hits(lo, hi, u, v) == Hits(lo, mid, u, v) + Hits(mid, hi, u, v)
    decreases hi
  {
    if mid < hi {
      HitsSplit(lo, mid, hi - 1, u, v);
    }
  }

  /** From a multiple of u on, the first n < u numbers have the residues 0, 1, ... */
  lemma {:induction false} HitsStart(q: nat, u: nat, v: nat, n: nat)
    requires 0 < u && v < u && n <= u
    ensures Hits(q * u, q * u + n, u, v) == if v < n then 1 else 0
  {
    if n > 0 {
      HitsStart(q, u, v, n - 1);
      DivModIs(q * u + (n - 1), u, q, n - 1);
    }
  }

  /** Each u numbers in a row hold each residue once. */
  lemma HitsBlock(lo: nat, u: nat, v: nat)
    requires 0 < u && v < u
    ensures Hits(lo, lo + u, u, v) == 1
  {
    hide Hits;
    var q, r := lo / u, lo % u;
    var a := q * u;
    var b := (q + 1) * u;
    assert lo == a + r && b == a + u;
    HitsStart(q, u, v, r);
    HitsStart(q, u, v, u);
    HitsStart(q + 1, u, v, r);
    HitsSplit(a, lo, b, u, v);
    HitsSplit(lo, b, lo + u, u, v);
  }

  lemma {:induction false} HitsBlocks(lo: nat, n: nat, u: nat, v: nat)
    requires 0 < u && v < u
    ensures Hits(lo, lo + n * u, u, v) == n
    decreases n
  {
    if n > 0 {
      assert n * u == (n - 1) * u + u;
      HitsBlocks(lo, n - 1, u, v);
      HitsBlock(lo + (n - 1) * u, u, v);
      HitsSplit(lo, lo + (n - 1) * u, lo + n * u, u, v);
    } else {
      assert n * u == 0;
    }
  }

  /** No bias: of the words that are accepted, each number below the bound is the
      result of exactly (2^32 - threshold) / bound. */
  lemma Unbiased(u: nat, v: nat)
    requires 2 <= u < WORDS && v < u
    ensures Hits(Threshold(u), WORDS, u, v) == (WORDS - Threshold(u)) / u
    ensures (WORDS - Threshold(u)) % u == 0
  {
    ThresholdIs(u);
    var q := WORDS / u;
    assert WORDS == q * u + Threshold(u);
    DivModIs(WORDS - Threshold(u), u, q, 0);
    HitsBlocks(Threshold(u), q, u, v);
  }

  datatype Draw = Again | Number(n: nat)

  /** arc4random_uniform, for the words that arc4random gives; it draws again as
      long as all of them are below the threshold. */
  method Uniform(u: nat, words: seq<nat>) returns (draw: Draw)
    requires u < WORDS && forall k :: 0 <= k < |words| ==> words[k] < WORDS
    ensures u < 2 ==> draw == Number(0)
    ensures 2 <= u && draw.Number? ==>
      draw.n < u && exists k :: 0 <= k < |words| && words[k] >= WORDS % u && draw.n == words[k] % u &&
                                forall m :: 0 <= m < k ==> words[m] < WORDS % u
    ensures 2 <= u && draw.Again? ==> forall k :: 0 <= k < |words| ==> words[k] < WORDS % u
  {
    if u < 2 {
      return Number(0);
    }
    ThresholdIs(u);
    var min := 0;
    if u > 0x8000_0000 {
      min := (1 + (0xffff_ffff - u)) % WORDS;
    } else {
      min := ((0xffff_ffff - u * 2 % WORDS) + 1) % WORDS % u;
    }
    var k := 0;
    while k < |words|
      invariant k <= |words| && forall m :: 0 <= m < k ==> words[m] < min
    {
      var r := words[k];
      if r >= min {
        return Number(r % u);
      }
      k := k + 1;
    }
    draw := Again;
  }
}
