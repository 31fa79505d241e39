/** Reading lines while bytes still arrive: where the reads cut the stream does not
    matter, except to the style that takes a run of CR and LF as one end of line. */
module EvLines {
  import opened Segments
  import opened EvBuffers
  import opened EvRead
  import opened EvSearch

  /** The complete lines of a byte string, and what follows the last one. */
  datatype Split = Split(lines: seq<seq<byte>>, rest: seq<byte>)

  /** Where the first end of line at or after position q is, |t| if there is none. */
  ghost function EolAt(style: EolStyle, t: seq<byte>, q: nat): (r: nat)
    requires q <= |t|
    ensures q <= r <= |t| && NoEol(style, t, q, r)
    ensures r < |t| ==> EolLen(style, t, r) > 0
    decreases |t| - q
  {
    if q == |t| || EolLen(style, t, q) > 0 then q else EolAt(style, t, q + 1)
  }

  lemma EolAtIs(style: EolStyle, t: seq<byte>, n: nat)
    requires n <= |t| && NoEol(style, t, 0, n) && (n < |t| ==> EolLen(style, t, n) > 0)
    ensures EolAt(style, t, 0) == n
  {
    var r := EolAt(style, t, 0);
    hide EolAt, EolLen;
  }

  /** A first line and the lines behind it. */
  ghost function Joined(line: seq<byte>, s: Split): Split {
    Split([line] + s.lines, s.rest)
  }

  /** Lines taken before, and those that follow. */
  ghost function After(lines: seq<seq<byte>>, s: Split): Split {
    Split(lines + s.lines, s.rest)
  }

  lemma AfterTwice(a: seq<seq<byte>>, b: seq<seq<byte>>, line: seq<byte>, s: Split)
    ensures After(a, After(b, s)) == After(a + b, s)
    ensures Joined(line, After(a, s)) == After([line] + a, s)
    ensures After(a, Joined(line, s)) == After(a + [line], s)
    ensures After([], s) == s
  {
    assert a + (b + s.lines) == (a + b) + s.lines;
    assert [line] + (a + s.lines) == ([line] + a) + s.lines;
    assert a + ([line] + s.lines) == (a + [line]) + s.lines;
  }

  ghost function Lines(style: EolStyle, t: seq<byte>): Split
    decreases |t|
  {
    var n := EolAt(style, t, 0);
    if n == |t| then Split([], t)
    else
      EolFits(style, t, n);
      Joined(t[..n], Lines(style, t[n + EolLen(style, t, n)..]))
  }

  lemma FirstLine(style: EolStyle, t: seq<byte>, n: nat, rest: seq<byte>)
    requires n < |t| && n == EolAt(style, t, 0)
    requires n + EolLen(style, t, n) <= |t| && rest == t[n + EolLen(style, t, n)..]
    ensures Lines(style, t) == Joined(t[..n], Lines(style, rest))
    ensures Lines(style, t).lines == [t[..n]] + Lines(style, rest).lines && Lines(style, t).rest == Lines(style, rest).rest
  {
    hide EolAt, EolLen;
  }

  // ----- where a stream is cut

  /** The cut goes through a run of CR and LF. */
  predicate Touching(a: seq<byte>, b: seq<byte>) {
    a != [] && b != [] && a[|a| - 1] in CRLF && b[0] in CRLF
  }

  /** A run that does not reach the cut stays as it is; one that does grows by the
      run behind the cut. */
  lemma {:induction false} RunCut(a: seq<byte>, b: seq<byte>, q: nat)
    requires q <= |a|
    ensures RunLen(a + b, q) == RunLen(a, q) + if q + RunLen(a, q) == |a| then RunLen(b, 0) else 0
    ensures q + RunLen(a, q) <= |a|
    decreases |a| - q
  {
    if q < |a| {
      RunCut(a, b, q + 1);
    } else {
      RunBehind(a, b, 0);
    }
  }

  lemma {:induction false} RunBehind(a: seq<byte>, b: seq<byte>, q: nat)
    ensures RunLen(a + b, |a| + q) == RunLen(b, q)
    decreases |b| - q
  {
    if q < |b| {
      RunBehind(a, b, q + 1);
    }
  }

  /** The bytes of a run. */
  lemma {:induction false} RunEnds(t: seq<byte>, q: nat)
    requires q < |t| && RunLen(t, q) > 0
    ensures q + RunLen(t, q) <= |t| && t[q + RunLen(t, q) - 1] in CRLF
    decreases |t| - q
  {
    assert t[q] == CRLF[0] || t[q] == CRLF[1];
    if q + 1 < |t| && RunLen(t, q + 1) > 0 {
      RunEnds(t, q + 1);
    }
  }

  /** Without a run at the cut, what is found before it is found in the whole. */
  lemma EolCut(style: EolStyle, a: seq<byte>, b: seq<byte>, q: nat)
    requires q < |a| && (style.Any? ==> !Touching(a, b))
    requires EolLen(style, a, q) > 0 || q + 1 < |a| || style.Any? || style.Lf?
    ensures EolLen(style, a + b, q) == EolLen(style, a, q)
  {
    if style.Any? {
      RunCut(a, b, q);
      if q + RunLen(a, q) == |a| {
        RunEnds(a, q);
        assert b == [] || b[0] !in CRLF;
        assert b != [] ==> b[0] != CRLF[0] && b[0] != CRLF[1];
      }
    } else if q + 1 < |a| {
      assert (a + b)[q..q + 2] == a[q..q + 2];
    }
  }

  /** The first end of line before the cut stays the first one. */
  lemma FirstEolCut(style: EolStyle, a: seq<byte>, b: seq<byte>)
    requires EolAt(style, a, 0) < |a| && (style.Any? ==> !Touching(a, b))
    ensures var n := EolAt(style, a, 0);
      EolAt(style, a + b, 0) == n && EolLen(style, a + b, n) == EolLen(style, a, n) > 0
  {
    var n := EolAt(style, a, 0);
    EolCut(style, a, b, n);
    forall q | 0 <= q < n
      ensures EolLen(style, a + b, q) == 0
    {
      EolCut(style, a, b, q);
    }
    hide EolAt, EolLen;
    EolAtIs(style, a + b, n);
  }

  /** Cutting a stream where no run is cut: the lines before the cut, and those of
      what was left there with the bytes behind it. */
  lemma {:induction false} LinesCut(style: EolStyle, a: seq<byte>, b: seq<byte>)
    requires style.Any? ==> !Touching(a, b)
    ensures Lines(style, a + b) == After(Lines(style, a).lines, Lines(style, Lines(style, a).rest + b))
    decreases |a|
  {
    hide Lines, EolAt, EolLen, After, Joined;
    var n := EolAt(style, a, 0);
    if n < |a| {
      FirstEolCut(style, a, b);
      var len := EolLen(style, a, n);
      EolFits(style, a, n);
      var a' := a[n + len..];
      assert (a + b)[n + len..] == a' + b && (a + b)[..n] == a[..n];
      FirstLine(style, a, n, a');
      FirstLine(style, a + b, n, a' + b);
      LinesCut(style, a', b);
      AfterTwice(Lines(style, a').lines, [], a[..n], Lines(style, Lines(style, a').rest + b));
    } else {
      NoLine(style, a);
      AfterTwice([], [], [], Lines(style, a + b));
    }
  }

  lemma NoLine(style: EolStyle, t: seq<byte>)
    requires EolAt(style, t, 0) == |t|
    ensures Lines(style, t) == Split([], t)
  {
    hide EolAt;
  }

  /** Cutting through a run makes one more line, an empty one. */
  lemma {:induction false} LinesCutRun(a: seq<byte>, b: seq<byte>)
    requires Touching(a, b)
    ensures |Lines(Any, a + b).lines| + 1 == |Lines(Any, a).lines| + |Lines(Any, Lines(Any, a).rest + b).lines|
    decreases |a|
  {
    hide Lines, EolAt, RunLen;
    var n := EolAt(Any, a, 0);
    EndsInRun(a);
    var len := RunLen(a, n);
    EolFits(Any, a, n);
    RunCut(a, b, n);
    FirstRunCut(a, b, n);
    var a' := a[n + len..];
    FirstLine(Any, a, n, a');
    EolFits(Any, a + b, n);
    if n + len == |a| {
      RunFirst(b);
      var m := RunLen(b, 0);
      EolFits(Any, b, 0);
      var b' := b[m..];
      FirstLine(Any, b, 0, b');
      assert (a + b)[n + len + m..] == b';
      FirstLine(Any, a + b, n, b');
      EmptyRest(a', b);
    } else {
      assert (a + b)[n + len..] == a' + b;
      FirstLine(Any, a + b, n, a' + b);
      LinesCutRun(a', b);
    }
  }

  lemma EmptyRest(a: seq<byte>, b: seq<byte>)
    requires a == []
    ensures Lines(Any, a) == Split([], []) && [] + b == b
  {
  }

  lemma EndsInRun(a: seq<byte>)
    requires a != [] && a[|a| - 1] in CRLF
    ensures EolAt(Any, a, 0) < |a|
  {
    assert a[|a| - 1] == CRLF[0] || a[|a| - 1] == CRLF[1];
    assert EolLen(Any, a, |a| - 1) > 0;
  }

  lemma FirstRunCut(a: seq<byte>, b: seq<byte>, n: nat)
    requires n == EolAt(Any, a, 0) < |a|
    ensures EolAt(Any, a + b, 0) == n
  {
    forall q | 0 <= q <= n
      ensures RunLen(a + b, q) > 0 <==> RunLen(a, q) > 0
    {
      RunCut(a, b, q);
    }
    forall q | 0 <= q < n
      ensures EolLen(Any, a + b, q) == 0
    {
      assert EolLen(Any, a, q) == 0;
    }
    EolAtIs(Any, a + b, n);
  }

  lemma RunFirst(b: seq<byte>)
    requires b != [] && b[0] in CRLF
    ensures EolAt(Any, b, 0) == 0 && RunLen(b, 0) > 0
  {
    assert b[0] == CRLF[0] || b[0] == CRLF[1];
  }

  /** Where a stream is cut matters exactly if the cut goes through a run and the
      style takes runs as one end of line. */
  lemma CutMatters(style: EolStyle, a: seq<byte>, b: seq<byte>)
    ensures Lines(style, a + b) == After(Lines(style, a).lines, Lines(style, Lines(style, a).rest + b)) <==>
            !(style.Any? && Touching(a, b))
  {
    if style.Any? && Touching(a, b) {
      LinesCutRun(a, b);
    } else {
      LinesCut(style, a, b);
    }
  }

  // ----- reading and taking lines in turn

  datatype Turn = Arrive(readable: int, howmuch: int, arrival: Arrival) | TakeLine

  /** The bytes that a turn brings. */
  function Brings(turn: Turn): seq<byte> {
    if turn.Arrive? then Taken(turn.arrival, ReadLimit(turn.readable, turn.howmuch)) else []
  }

  /** The bytes that the first n turns bring. */
  function Brought(turns: seq<Turn>, n: nat): seq<byte>
    requires n <= |turns|
  {
    if n == 0 then [] else Brought(turns, n - 1) + Brings(turns[n - 1])
  }

  /** No read cuts a run of CR and LF. */
  ghost predicate Smooth(t: seq<byte>, turns: seq<Turn>) {
    forall n :: 0 <= n < |turns| ==> !Touching(t + Brought(turns, n), Brings(turns[n]))
  }

  ghost predicate EndsWith(stream: seq<byte>, t: seq<byte>) {
    |t| <= |stream| && stream[|stream| - |t|..] == t
  }

  lemma EndsMore(stream: seq<byte>, t: seq<byte>, bs: seq<byte>)
    requires EndsWith(stream, t)
    ensures EndsWith(stream + bs, t + bs)
    ensures Touching(t, bs) ==> Touching(stream, bs)
  {
    assert t != [] ==> t[|t| - 1] == stream[|stream| - 1];
    assert (stream + bs)[|stream| - |t|..] == stream[|stream| - |t|..] + bs;
  }

  lemma EndsLess(stream: seq<byte>, t: seq<byte>, k: nat)
    requires EndsWith(stream, t) && k <= |t|
    ensures EndsWith(stream, t[k..])
  {
    var a := |stream| - |t|;
    assert stream[a..][k..] == stream[a + k..];
  }

  /** The lines taken so far and those still in the buffer are the lines of the
      whole stream, whose end is in the buffer. */
  ghost predicate InStep(style: EolStyle, lines: seq<seq<byte>>, t: seq<byte>, stream: seq<byte>) {
    Lines(style, stream) == After(lines, Lines(style, t)) && EndsWith(stream, t)
  }

  lemma StepArrive(style: EolStyle, lines: seq<seq<byte>>, t: seq<byte>, stream: seq<byte>, bs: seq<byte>)
    requires InStep(style, lines, t, stream) && (style.Any? ==> !Touching(stream, bs))
    ensures InStep(style, lines, t + bs, stream + bs)
  {
    EndsMore(stream, t, bs);
    hide Lines, Touching, EndsWith;
    LinesCut(style, t, bs);
    LinesCut(style, stream, bs);
    AfterTwice(lines, Lines(style, t).lines, [], Lines(style, Lines(style, t).rest + bs));
  }

  lemma StepLine(style: EolStyle, lines: seq<seq<byte>>, t: seq<byte>, line: seq<byte>, rest: seq<byte>, stream: seq<byte>)
    requires InStep(style, lines, t, stream) && |line| < |t| && NoEol(style, t, 0, |line|)
    requires 0 < EolLen(style, t, |line|) && |line| + EolLen(style, t, |line|) <= |t|
    requires t == line + t[|line|..|line| + EolLen(style, t, |line|)] + rest
    ensures InStep(style, lines + [line], rest, stream)
  {
    EolAtIs(style, t, |line|);
    hide Lines, EolAt, EolLen, EndsWith;
    assert t[..|line|] == line && t[|line| + EolLen(style, t, |line|)..] == rest;
    FirstLine(style, t, |line|, rest);
    EndsLess(stream, t, |line| + EolLen(style, t, |line|));
    AfterTwice(lines, [], line, Lines(style, rest));
  }

  /** evbuffer_read and evbuffer_readln in any order, for any sizes of the reads:
      the lines come out as if all bytes had been there from the start. */
  method Session(buf: EvBuffer, style: EolStyle, turns: seq<Turn>) returns (lines: seq<seq<byte>>)
    requires buf.Valid() && buf.Accounted()
    modifies buf, buf.heap
    ensures buf.Valid() && buf.Accounted()
    ensures (style.Any? ==> Smooth(old(buf.Bytes()), turns)) ==>
      InStep(style, lines, buf.Bytes(), old(buf.Bytes()) + Brought(turns, |turns|))
    ensures Swaps(old(buf.heap.mem), old(buf.Own()), buf.heap.mem, buf.Own())
  {
    hide Lines, EolLen, InStep, Smooth, Brought, Brings;
    lines := [];
    ghost var t0 := buf.Bytes();
    StepNone(style, t0, turns);
    var n := 0;
    while n < |turns|
      invariant n <= |turns| && buf.Valid() && buf.Accounted()
      invariant (style.Any? ==> Smooth(t0, turns)) ==> InStep(style, lines, buf.Bytes(), t0 + Brought(turns, n))
      invariant Swaps(old(buf.heap.mem), old(buf.Own()), buf.heap.mem, buf.Own())
    {
      ghost var t := buf.Bytes();
      var turn := turns[n];
      if turn.Arrive? {
        var _ := Read(buf, turn.readable, turn.howmuch, turn.arrival);
        TurnArrive(style, lines, t0, turns, n, t);
      } else {
        var line := Readln(buf, style);
        if line.Line? {
          TurnLine(style, lines, t0, turns, n, t, line.bytes, buf.Bytes());
          lines := lines + [line.bytes];
        } else {
          TurnNoLine(t0, turns, n);
        }
      }
      n := n + 1;
    }
  }

  lemma StepNone(style: EolStyle, t: seq<byte>, turns: seq<Turn>)
    ensures InStep(style, [], t, t + Brought(turns, 0))
  {
    assert t + [] == t;
    AfterTwice([], [], [], Lines(style, t));
    hide Lines;
  }

  lemma TurnArrive(style: EolStyle, lines: seq<seq<byte>>, t0: seq<byte>, turns: seq<Turn>, n: nat, t: seq<byte>)
    requires n < |turns| && turns[n].Arrive?
    requires (style.Any? ==> Smooth(t0, turns)) ==> InStep(style, lines, t, t0 + Brought(turns, n))
    ensures var turn := turns[n]; var bs := Taken(turn.arrival, ReadLimit(turn.readable, turn.howmuch));
      (style.Any? ==> Smooth(t0, turns)) ==> InStep(style, lines, t + bs, t0 + Brought(turns, n + 1))
  {
    hide InStep, Touching;
    Assoc(t0, Brought(turns, n), Brings(turns[n]));
    if style.Any? ==> Smooth(t0, turns) {
      StepArrive(style, lines, t, t0 + Brought(turns, n), Brings(turns[n]));
    }
  }

  lemma TurnNoLine(t0: seq<byte>, turns: seq<Turn>, n: nat)
    requires n < |turns| && turns[n].TakeLine?
    ensures t0 + Brought(turns, n + 1) == t0 + Brought(turns, n)
  {
    assert Brought(turns, n) + [] == Brought(turns, n);
  }

  lemma TurnLine(style: EolStyle, lines: seq<seq<byte>>, t0: seq<byte>, turns: seq<Turn>, n: nat,
                 t: seq<byte>, line: seq<byte>, rest: seq<byte>)
    requires n < |turns| && turns[n].TakeLine?
    requires (style.Any? ==> Smooth(t0, turns)) ==> InStep(style, lines, t, t0 + Brought(turns, n))
    requires |line| < |t| && NoEol(style, t, 0, |line|)
    requires 0 < EolLen(style, t, |line|) && |line| + EolLen(style, t, |line|) <= |t|
    requires t == line + t[|line|..|line| + EolLen(style, t, |line|)] + rest
    ensures (style.Any? ==> Smooth(t0, turns)) ==> InStep(style, lines + [line], rest, t0 + Brought(turns, n + 1))
  {
    hide InStep, Smooth;
    TurnNoLine(t0, turns, n);
    if style.Any? ==> Smooth(t0, turns) {
      StepLine(style, lines, t, line, rest, t0 + Brought(turns, n));
    }
  }
}
