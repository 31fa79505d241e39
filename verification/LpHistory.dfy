/** How the single changes of the proxy's state affect its history. */
module LpHistory {
  import opened LpProtocol
  import opened LpInvariant

  // ----- the ticks of outstanding queries

  /** More tasks do not change what the first n are. */
  lemma {:induction false} WaitPrefix(jobs: seq<Job>, places: seq<Place>, job: Job, place: Place,
                                      i: int, life: nat, tick: int, n: nat)
    requires n <= |jobs| == |places|
    ensures WaitCount(jobs + [job], places + [place], i, life, tick, n) == WaitCount(jobs, places, i, life, tick, n)
  {
    if n > 0 {
      WaitPrefix(jobs, places, job, place, i, life, tick, n - 1);
    }
  }

  /** A query that was answered or lost is not counted any more. */
  lemma {:induction false} WaitGone(jobs: seq<Job>, places: seq<Place>, id: nat, i: int, life: nat, tick: int, n: nat)
    requires n <= |jobs| == |places| && id < |jobs|
    ensures WaitCount(jobs, places, i, life, tick, n) == WaitCount(jobs, places[id := Gone], i, life, tick, n) +
      if id < n && Waits(jobs[id], places[id], i, life, tick) then 1 else 0
  {
    if n > 0 {
      WaitGone(jobs, places, id, i, life, tick, n - 1);
    }
  }

  /** A query that moves on is. */
  lemma {:induction false} WaitMoved(jobs: seq<Job>, places: seq<Place>, id: nat, to: Place,
                                     i: int, life: nat, tick: int, n: nat)
    requires n <= |jobs| == |places| && id < |jobs| && !places[id].Gone? && !to.Gone?
    ensures WaitCount(jobs, places[id := to], i, life, tick, n) == WaitCount(jobs, places, i, life, tick, n)
  {
    if n > 0 {
      WaitMoved(jobs, places, id, to, i, life, tick, n - 1);
    }
  }

  lemma {:induction false} WaitWitness(jobs: seq<Job>, places: seq<Place>, i: int, life: nat, tick: int, n: nat) returns (id: nat)
    requires n <= |jobs| == |places| && 0 < WaitCount(jobs, places, i, life, tick, n)
    ensures id < n && Waits(jobs[id], places[id], i, life, tick)
  {
    if Waits(jobs[n - 1], places[n - 1], i, life, tick) {
      id := n - 1;
    } else {
      id := WaitWitness(jobs, places, i, life, tick, n - 1);
    }
  }

  lemma {:induction false} WaitHas(jobs: seq<Job>, places: seq<Place>, id: nat, n: nat)
    requires id < n <= |jobs| == |places| && Outstanding(jobs, places, id)
    ensures 0 < WaitCount(jobs, places, jobs[id].slot, jobs[id].life, jobs[id].tick, n)
  {
    if id < n - 1 {
      WaitHas(jobs, places, id, n - 1);
    }
  }

  /** An incarnation that is new has no queries. */
  lemma {:induction false} WaitNone(jobs: seq<Job>, places: seq<Place>, i: int, life: nat, tick: int, n: nat)
    requires n <= |jobs| == |places|
    requires forall id :: 0 <= id < |jobs| && jobs[id].slot == i ==> jobs[id].life < life
    ensures WaitCount(jobs, places, i, life, tick, n) == 0
  {
    if n > 0 {
      WaitNone(jobs, places, i, life, tick, n - 1);
    }
  }

  lemma {:induction false} TickAdded(ticks: seq<int>, t: int, tick: int)
    ensures TickCount(ticks + [t], tick) == TickCount(ticks, tick) + if t == tick then 1 else 0
  {
    if ticks != [] {
      assert (ticks + [t])[1..] == ticks[1..] + [t];
      TickAdded(ticks[1..], t, tick);
    }
  }

  lemma {:induction false} TickRemoved(ticks: seq<int>, t: int, tick: int)
    requires t in ticks
    ensures TickCount(Remove(ticks, t), tick) == TickCount(ticks, tick) - if t == tick then 1 else 0
    ensures |Remove(ticks, t)| == |ticks| - 1
  {
    if ticks[0] != t {
      TickRemoved(ticks[1..], t, tick);
      assert Remove(ticks, t)[1..] == Remove(ticks[1..], t);
    }
  }

  lemma {:induction false} TickThere(ticks: seq<int>, tick: int)
    ensures 0 < TickCount(ticks, tick) <==> tick in ticks
  {
    if ticks != [] {
      TickThere(ticks[1..], tick);
      assert ticks == [ticks[0]] + ticks[1..];
    }
  }

  // ----- single changes

  /** Nothing that the history depends on changed. */
  lemma HistorySame(s: State, s': State, free: Slots, distinct: bool)
    requires History(s, free, distinct) && |s'.conns| == |s.conns| && s'.lives == s.lives
    requires forall k :: 0 <= k < |s.conns| ==> s'.conns[k].ticks == s.conns[k].ticks
    requires s'.jobs == s.jobs && s'.places == s.places && s'.accepted == s.accepted && s'.freed == s.freed
    ensures History(s', free, distinct)
  {
    forall k | 0 <= k < |s'.accepted|
      ensures AcceptOk(s', s'.accepted[k], distinct)
    {
      assert AcceptOk(s, s.accepted[k], distinct);
    }
  }

  lemma CountPush(jobs: seq<Job>, job: Job, i: int, life: nat)
    ensures AskCount(jobs + [job], i, life) ==
      AskCount(jobs, i, life) + if job.Ask? && job.slot == i && job.life == life then 1 else 0
  {
    assert (jobs + [job])[..|jobs|] == jobs;
  }

  lemma CountAccept(accepted: seq<Accept>, a: Accept, i: int, life: nat)
    ensures AcceptCount(accepted + [a], i, life) ==
      AcceptCount(accepted, i, life) + if a.slot == i && a.life == life then 1 else 0
  {
    assert (accepted + [a])[..|accepted|] == accepted;
  }

  /** A new query of slot i, with its tick. */
  lemma HistoryQuery(s: State, s': State, free: Slots, distinct: bool, i: nat, job: Job, place: Place)
    requires History(s, free, distinct) && i < |s.conns| && i !in SlotSet(free)
    requires job.Ask? && job.slot == i && job.life == s.lives[i] && !place.Gone?
    requires s'.conns == s.conns[i := s.conns[i].(ticks := s.conns[i].ticks + [job.tick])] && s'.lives == s.lives
    requires s'.jobs == s.jobs + [job] && s'.places == s.places + [place]
    requires s'.accepted == s.accepted && s'.freed == s.freed
    ensures History(s', free, distinct)
  {
    forall k | 0 <= k < |s'.accepted|
      ensures AcceptOk(s', s'.accepted[k], distinct)
    {
      assert AcceptOk(s, s.accepted[k], distinct);
    }
    forall k: int, life: nat
      ensures AcceptCount(s'.accepted, k, life) <= AskCount(s'.jobs, k, life)
    {
      CountPush(s.jobs, job, k, life);
    }
    forall k | 0 <= k < |s'.conns| && k !in SlotSet(free)
      ensures |s'.conns[k].ticks| + AcceptCount(s'.accepted, k, s'.lives[k]) <= AskCount(s'.jobs, k, s'.lives[k])
    {
      CountPush(s.jobs, job, k, s.lives[k]);
    }
    forall k, tick | 0 <= k < |s'.conns| && k !in SlotSet(free)
      ensures distinct ==> TickCount(s'.conns[k].ticks, tick) == WaitCount(s'.jobs, s'.places, k, s'.lives[k], tick, |s'.jobs|)
    {
      WaitPrefix(s.jobs, s.places, job, place, k, s.lives[k], tick, |s.jobs|);
      TickAdded(s.conns[i].ticks, job.tick, tick);
    }
  }

  /** Slot i is handed out again, and its registration is on its way. */
  lemma HistoryTake(s: State, s': State, free: Slots, free': Slots, distinct: bool, i: nat, place: Place)
    requires History(s, free, distinct) && i < |s.conns| && SlotSet(free) == SlotSet(free') + {i}
    requires i !in SlotSet(free') && s.conns[i].ticks == []
    requires forall id :: 0 <= id < |s.jobs| && s.jobs[id].slot == i ==> s.jobs[id].life <= s.lives[i]
    requires |s'.conns| == |s.conns| && forall k :: 0 <= k < |s.conns| ==> s'.conns[k].ticks == s.conns[k].ticks
    requires s'.lives == s.lives[i := s.lives[i] + 1]
    requires s'.jobs == s.jobs + [Reg(i, s'.lives[i])] && s'.places == s.places + [place]
    requires s'.accepted == s.accepted && s'.freed == s.freed
    ensures History(s', free', distinct)
  {
    var job := Reg(i, s'.lives[i]);
    forall k | 0 <= k < |s'.accepted|
      ensures AcceptOk(s', s'.accepted[k], distinct)
    {
      assert AcceptOk(s, s.accepted[k], distinct);
    }
    forall k: int, life: nat
      ensures AcceptCount(s'.accepted, k, life) <= AskCount(s'.jobs, k, life)
    {
      CountPush(s.jobs, job, k, life);
    }
    forall k | 0 <= k < |s'.conns| && k !in SlotSet(free')
      ensures |s'.conns[k].ticks| + AcceptCount(s'.accepted, k, s'.lives[k]) <= AskCount(s'.jobs, k, s'.lives[k])
    {
      CountPush(s.jobs, job, k, s'.lives[k]);
    }
    forall k, tick | 0 <= k < |s'.conns| && k !in SlotSet(free')
      ensures distinct ==> TickCount(s'.conns[k].ticks, tick) == WaitCount(s'.jobs, s'.places, k, s'.lives[k], tick, |s'.jobs|)
    {
      WaitPrefix(s.jobs, s.places, job, place, k, s'.lives[k], tick, |s.jobs|);
      if k == i {
        WaitNone(s.jobs, s.places, i, s'.lives[i], tick, |s.jobs|);
      }
    }
  }

  /** Incarnation lives[i] of slot i is over. */
  lemma HistoryFree(s: State, s': State, free: Slots, distinct: bool, i: nat)
    requires History(s, free, distinct) && i < |s.conns| && i !in SlotSet(free)
    requires |s'.conns| == |s.conns| && forall k :: 0 <= k < |s.conns| && k != i ==> s'.conns[k].ticks == s.conns[k].ticks
    requires s'.lives == s.lives && s'.jobs == s.jobs && s'.places == s.places && s'.accepted == s.accepted
    requires s'.freed == s.freed + [(i, s.lives[i])]
    ensures History(s', SCons(i, free), distinct)
  {
    forall k | 0 <= k < |s'.accepted|
      ensures AcceptOk(s', s'.accepted[k], distinct)
    {
      assert AcceptOk(s, s.accepted[k], distinct);
    }
  }

  /** A task moved on, or is gone without effect on a used connection. */
  lemma HistoryMoved(s: State, s': State, free: Slots, distinct: bool, id: nat, to: Place)
    requires History(s, free, distinct) && id < |s.jobs| && !s.places[id].Gone?
    requires distinct && to.Gone? && s.jobs[id].Ask? && 0 <= s.jobs[id].slot < |s.conns| ==>
      s.jobs[id].slot in SlotSet(free) || s.jobs[id].life != s.lives[s.jobs[id].slot]
    requires |s'.conns| == |s.conns| && forall k :: 0 <= k < |s.conns| ==> s'.conns[k].ticks == s.conns[k].ticks
    requires s'.lives == s.lives && s'.jobs == s.jobs && s'.places == s.places[id := to]
    requires s'.accepted == s.accepted && s'.freed == s.freed
    ensures History(s', free, distinct)
  {
    forall k | 0 <= k < |s'.accepted|
      ensures AcceptOk(s', s'.accepted[k], distinct)
    {
      assert AcceptOk(s, s.accepted[k], distinct);
    }
    forall k, tick | 0 <= k < |s'.conns| && k !in SlotSet(free)
      ensures distinct ==> TickCount(s'.conns[k].ticks, tick) == WaitCount(s'.jobs, s'.places, k, s'.lives[k], tick, |s'.jobs|)
    {
      if to.Gone? {
        WaitGone(s.jobs, s.places, id, k, s.lives[k], tick, |s.jobs|);
      } else {
        WaitMoved(s.jobs, s.places, id, to, k, s.lives[k], tick, |s.jobs|);
      }
    }
  }

  /** With distinct ticks, a tick that a connection keeps is that of a query of
      the present incarnation. */
  lemma TickIsCurrent(s: State, free: Slots, id: nat)
    requires History(s, free, true) && DistinctTicks(s) && id < |s.jobs| && Outstanding(s.jobs, s.places, id)
    requires s.jobs[id].slot < |s.conns| && s.jobs[id].slot !in SlotSet(free)
    requires s.jobs[id].tick in s.conns[s.jobs[id].slot].ticks
    ensures s.jobs[id].life == s.lives[s.jobs[id].slot]
  {
    var j := s.jobs[id];
    TickThere(s.conns[j.slot].ticks, j.tick);
    var other := WaitWitness(s.jobs, s.places, j.slot, s.lives[j.slot], j.tick, |s.jobs|);
  }

  /** An answer whose tick was found: the tick goes, and the reply is accepted if
      `accepts`. */
  lemma HistoryAnswer(s: State, s': State, free: Slots, distinct: bool, id: nat, accepts: bool, packet: seq<Msg>)
    requires History(s, free, distinct) && id < |s.jobs| && Outstanding(s.jobs, s.places, id)
    requires s.jobs[id].slot < |s.conns| && s.jobs[id].slot !in SlotSet(free)
    requires s.jobs[id].tick in s.conns[s.jobs[id].slot].ticks && Answers(packet, s.jobs[id].msgid)
    requires distinct ==> s.jobs[id].life == s.lives[s.jobs[id].slot]
    requires |s'.conns| == |s.conns|
    requires forall k :: 0 <= k < |s.conns| ==>
      (s'.conns[k].ticks ==
       (if k == s.jobs[id].slot then Remove(s.conns[k].ticks, s.jobs[id].tick) else s.conns[k].ticks))
    requires s'.lives == s.lives && s'.jobs == s.jobs && s'.places == s.places[id := Gone] && s'.freed == s.freed
    requires s'.accepted == if accepts
                            then s.accepted + [Accept(id, s.jobs[id].slot, s.lives[s.jobs[id].slot], packet)]
                            else s.accepted
    ensures History(s', free, distinct)
  {
    hide AcceptOk, OneReply, Ticking, Counted, FreedOnce, Answers, TickCount, Remove, WaitCount, AskCount, AcceptCount;
    var i, tick := s.jobs[id].slot, s.jobs[id].tick;
    var a := Accept(id, i, s.lives[i], packet);
    AnswerAccepts(s, s', distinct, accepts, a);
    if distinct {
      AnswerTicks(s, s', free, id);
    }
    TickRemoved(s.conns[i].ticks, tick, tick);
    AnswerCounts(s, s', free, accepts, a);
    AnswerFreed(s, s', free);
  }

  lemma AnswerAccepts(s: State, s': State, distinct: bool, accepts: bool, a: Accept)
    requires a.id < |s.jobs| == |s.places| && Outstanding(s.jobs, s.places, a.id)
    requires forall k :: 0 <= k < |s.accepted| ==> AcceptOk(s, s.accepted[k], distinct)
    requires OneReply(s) && s.jobs[a.id].slot == a.slot && Answers(a.packet, s.jobs[a.id].msgid)
    requires distinct ==> s.jobs[a.id].life == a.life
    requires s'.jobs == s.jobs && s'.places == s.places[a.id := Gone]
    requires s'.accepted == if accepts then s.accepted + [a] else s.accepted
    ensures forall k :: 0 <= k < |s'.accepted| ==> AcceptOk(s', s'.accepted[k], distinct)
    ensures OneReply(s')
  {
    forall k | 0 <= k < |s'.accepted|
      ensures AcceptOk(s', s'.accepted[k], distinct)
    {
      assert k < |s.accepted| ==> AcceptOk(s, s.accepted[k], distinct);
    }
    forall j, k | 0 <= j < k < |s'.accepted|
      ensures s'.accepted[j].id != s'.accepted[k].id
    {
      assert AcceptOk(s, s.accepted[j], distinct);
    }
  }

  lemma AnswerFreed(s: State, s': State, free: Slots)
    requires |s.lives| == |s.conns| == |s'.conns| && s'.lives == s.lives && s'.freed == s.freed && FreedOnce(s, free)
    ensures FreedOnce(s', free)
  {
  }

  lemma AnswerTicks(s: State, s': State, free: Slots, id: nat)
    requires |s.lives| == |s.conns| && id < |s.jobs| == |s.places| && Ticking(s, free) && Outstanding(s.jobs, s.places, id)
    requires s.jobs[id].slot < |s.conns| && s.jobs[id].slot !in SlotSet(free)
    requires s.jobs[id].tick in s.conns[s.jobs[id].slot].ticks && s.jobs[id].life == s.lives[s.jobs[id].slot]
    requires |s'.conns| == |s.conns|
    requires forall k :: 0 <= k < |s.conns| ==>
      (s'.conns[k].ticks ==
       (if k == s.jobs[id].slot then Remove(s.conns[k].ticks, s.jobs[id].tick) else s.conns[k].ticks))
    requires s'.lives == s.lives && s'.jobs == s.jobs && s'.places == s.places[id := Gone]
    ensures Ticking(s', free)
  {
    forall k, t | 0 <= k < |s'.conns| && k !in SlotSet(free)
      ensures TickCount(s'.conns[k].ticks, t) == WaitCount(s'.jobs, s'.places, k, s'.lives[k], t, |s'.jobs|)
    {
      WaitGone(s.jobs, s.places, id, k, s.lives[k], t, |s.jobs|);
      TickRemoved(s.conns[s.jobs[id].slot].ticks, s.jobs[id].tick, t);
    }
  }

  lemma AcceptMore(accepted: seq<Accept>, jobs: seq<Job>, a: Accept)
    requires forall i: int, life: nat :: AcceptCount(accepted, i, life) <= AskCount(jobs, i, life)
    requires AcceptCount(accepted, a.slot, a.life) < AskCount(jobs, a.slot, a.life)
    ensures forall i: int, life: nat :: AcceptCount(accepted + [a], i, life) <= AskCount(jobs, i, life)
  {
    forall i: int, life: nat
      ensures AcceptCount(accepted + [a], i, life) <= AskCount(jobs, i, life)
    {
      CountAccept(accepted, a, i, life);
    }
  }

  lemma AnswerCounts(s: State, s': State, free: Slots, accepts: bool, a: Accept)
    requires |s.lives| == |s.conns| == |s'.conns| && s'.lives == s.lives && s'.jobs == s.jobs && Counted(s, free)
    requires a.slot < |s.conns| && a.slot !in SlotSet(free) && a.life == s.lives[a.slot] && s.conns[a.slot].ticks != []
    requires forall k :: 0 <= k < |s.conns| ==>
      (|s'.conns[k].ticks| == (if k == a.slot then |s.conns[k].ticks| - 1 else |s.conns[k].ticks|))
    requires s'.accepted == if accepts then s.accepted + [a] else s.accepted
    ensures Counted(s', free)
  {
    if accepts {
      AcceptMore(s.accepted, s.jobs, a);
    }
    forall k | 0 <= k < |s'.conns| && k !in SlotSet(free)
      ensures |s'.conns[k].ticks| + AcceptCount(s'.accepted, k, s'.lives[k]) <= AskCount(s'.jobs, k, s'.lives[k])
    {
      CountAccept(s.accepted, a, k, s.lives[k]);
    }
  }
}
