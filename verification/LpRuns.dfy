/** Runs of the proxy, and what holds in all of them. */
module LpRuns {
  import opened LpProtocol
  import opened LpInvariant
  import opened LpHistory
  import opened LpSteps

  /** A client connects and thread l gets it; an event of a connection fires;
      thread l takes its next task; worker m takes its next query, and the lookups
      return user and list. */
  datatype Step =
    | Connect(fd: int, l: nat)
    | Fire(i: int, ev: IoEvent)
    | Notify(l: nat, written: nat)
    | Work(m: nat, user: int, list: int)

  /** The step can happen: a queue is not empty, an event is added. */
  ghost predicate Enabled(s: State, step: Step) {
    match step
    case Connect(_, l) => l < |s.ldaps| && (s.freeHead == NONE || InPool(s, s.freeHead))
    case Fire(i, _) => CanFire(s, i)
    case Notify(l, _) =>
      l < |s.ldaps| && s.ldaps[l] != [] && s.ldaps[l][0].id < |s.places| && InPool(s, s.ldaps[l][0].job.slot)
    case Work(m, _, _) =>
      && m < |s.mysqls| && s.mysqls[m] != [] && s.mysqls[m][0].id < |s.places| && s.mysqls[m][0].job.Ask?
      && InPool(s, s.mysqls[m][0].job.slot) && s.conns[s.mysqls[m][0].job.slot].ldap < |s.ldaps|
  }

  ghost function Next(s: State, step: Step): State
    requires Enabled(s, step)
  {
    match step
    case Connect(fd, l) => IoRegister(s, fd, l)
    case Fire(i, ev) => HandleEvent(s, i, ev)
    case Notify(l, written) => TaskProcess(s, l, written)
    case Work(m, user, list) => WorkerStep(s, m, user, list)
  }

  // ----- lp_connections_init

  /** Connection i before any was handed out. */
  function Fresh(i: nat, max: nat): Conn {
    Blank(i, -1, if i + 1 < max then i + 1 else NONE)
  }

  /** max connections, with the queues of the threads and workers empty. */
  ghost function Initial(max: nat, workers: nat, threads: nat): State {
    State(seq(max, i requires 0 <= i < max => Fresh(i, max)), if max == 0 then NONE else 0, max, 0,
          seq(workers, _ => []), seq(threads, _ => []), seq(max, _ => 0), [], [], [], [])
  }

  ghost function Upwards(from: nat, max: nat): (free: Slots)
    requires from <= max
    ensures Count(free) == max - from
    ensures forall i :: i in SlotSet(free) <==> from <= i < max
    ensures Distinct(free)
    decreases max - from
  {
    if from == max then SNil else SCons(from, Upwards(from + 1, max))
  }

  lemma {:induction false} InitialChain(s: State, from: nat, max: nat)
    requires from <= max == |s.conns| && forall i :: 0 <= i < max ==> s.conns[i] == Fresh(i, max)
    ensures FreeChain(s.conns, if from < max then from else NONE, Upwards(from, max))
    decreases max - from
  {
    if from < max {
      InitialChain(s, from + 1, max);
    }
  }

  lemma InitialInv(max: nat, workers: nat, threads: nat, distinct: bool) returns (free: Slots)
    requires 0 < workers
    ensures Inv(Initial(max, workers, threads), free, distinct)
  {
    free := Upwards(0, max);
    InitialChain(Initial(max, workers, threads), 0, max);
  }

  // ----- runs

  ghost predicate Started(s: State) {
    exists max: nat, workers: nat, threads: nat :: 0 < workers && s == Initial(max, workers, threads)
  }

  /** states are what the steps lead through. */
  ghost predicate Run(states: seq<State>, steps: seq<Step>) {
    && |states| == |steps| + 1 && Started(states[0])
    && forall k :: 0 <= k < |steps| ==> Enabled(states[k], steps[k]) && states[k + 1] == Next(states[k], steps[k])
  }

  /** The steps can happen one after another. */
  ghost predicate Possible(s: State, steps: seq<Step>)
    decreases |steps|
  {
    steps != [] ==> Enabled(s, steps[0]) && Possible(Next(s, steps[0]), steps[1..])
  }

  /** One more step. */
  lemma RunMore(states: seq<State>, steps: seq<Step>, step: Step) returns (states': seq<State>, steps': seq<Step>)
    requires Run(states, steps) && Enabled(states[|steps|], step)
    ensures steps' == steps + [step] && states' == states + [Next(states[|steps|], step)] && Run(states', steps')
  {
    hide Started, Enabled, Next;
    steps', states' := steps + [step], states + [Next(states[|steps|], step)];
  }

  lemma NextInv(s: State, free: Slots, distinct: bool, step: Step) returns (free': Slots)
    requires Inv(s, free, distinct) && Enabled(s, step) && (distinct ==> DistinctTicks(s))
    ensures Inv(Next(s, step), free', distinct)
  {
    free' := free;
    match step {
      case Connect(fd, l) => free' := IoRegisterInv(s, free, distinct, fd, l);
      case Fire(i, ev) => free' := EventInv(s, free, distinct, i, ev);
      case Notify(l, written) => TaskInv(s, free, distinct, l, written);
      case Work(m, user, list) => WorkerInv(s, free, distinct, m, user, list);
    }
  }

  lemma {:induction false} RunInv(states: seq<State>, steps: seq<Step>, distinct: bool, n: nat) returns (free: Slots)
    requires Run(states, steps) && n < |states|
    requires distinct ==> forall k :: 0 <= k < n ==> DistinctTicks(states[k])
    ensures Inv(states[n], free, distinct)
    decreases n
  {
    if n == 0 {
      var max: nat, workers: nat, threads: nat :| 0 < workers && states[0] == Initial(max, workers, threads);
      free := InitialInv(max, workers, threads, distinct);
    } else {
      free := RunInv(states, steps, distinct, n - 1);
      assert states[n - 1 + 1] == Next(states[n - 1], steps[n - 1]);
      free := NextInv(states[n - 1], free, distinct, steps[n - 1]);
    }
  }

  /** No step changes the number of slots. */
  lemma NextSize(s: State, step: Step)
    requires Enabled(s, step)
    ensures |Next(s, step).conns| == |s.conns|
  {
    if step.Fire? {
      var c, ev := s.conns[step.i], step.ev;
      RequestsSize(SetConn(s, step.i, if ev.readFails then IoUnregister(c.(req := c.req + ev.arrived))
                                      else c.(req := c.req + ev.arrived)), step.i);
    }
  }

  lemma {:induction false} RequestsSize(s: State, i: int)
    requires InPool(s, i)
    ensures |ProcessRequests(s, i).0.conns| == |s.conns|
    decreases |s.conns[i].req|
  {
    var c := s.conns[i];
    if c.req != [] && !c.req[0].NoMsgid? {
      RequestsSize(DoRequest(SetConn(s, i, c.(req := c.req[1..])), i, c.req[0]), i);
    }
  }

  lemma {:induction false} RunSize(states: seq<State>, steps: seq<Step>, n: nat)
    requires Run(states, steps) && n < |states|
    ensures |states[n].conns| == |states[0].conns|
  {
    hide Next, Enabled, Started;
    if n > 0 {
      RunSize(states, steps, n - 1);
      NextSize(states[n - 1], steps[n - 1]);
      assert states[n - 1 + 1] == Next(states[n - 1], steps[n - 1]);
    }
  }

  // ----- the theorems

  /** In every run: the number of slots stays, slots keep their index, free and used
      connections add up, the free list has no slot twice, a used connection is
      closed exactly if it is closing and has no events then, and no incarnation is
      freed twice. */
  lemma PoolSafety(states: seq<State>, steps: seq<Step>, n: nat) returns (free: Slots)
    requires Run(states, steps) && n < |states|
    ensures var s := states[n];
      && |s.lives| == |s.conns| == |states[0].conns| && FreeChain(s.conns, s.freeHead, free) && Distinct(free)
      && s.freeN == Count(free) && s.freeN + s.usedN == |s.conns|
      && (forall i :: 0 <= i < |s.conns| ==>
            s.conns[i].idx == i && (s.conns[i].closing <==> s.conns[i].closed)
            && (i in SlotSet(free) || s.conns[i].closed ==> !s.conns[i].rev && !s.conns[i].wev))
      && (forall j, k :: 0 <= j < k < |s.freed| ==> s.freed[j] != s.freed[k])
  {
    free := RunInv(states, steps, false, n);
    RunSize(states, steps, n);
    var s := states[n];
    forall i | 0 <= i < |s.conns|
      ensures s.conns[i].idx == i && (s.conns[i].closing <==> s.conns[i].closed)
      ensures i in SlotSet(free) || s.conns[i].closed ==> !s.conns[i].rev && !s.conns[i].wev
    {
      assert ConnOk(s, i, i in SlotSet(free));
    }
  }

  /** In every run: no query is answered twice, every accepted reply went to the
      connection that asked and carries the query's message id, and no incarnation
      gets more replies than it made queries. */
  lemma ReplySafety(states: seq<State>, steps: seq<Step>, n: nat)
    requires Run(states, steps) && n < |states|
    ensures var s := states[n];
      && (forall j, k :: 0 <= j < k < |s.accepted| ==> s.accepted[j].id != s.accepted[k].id)
      && (forall k :: 0 <= k < |s.accepted| ==>
            var a := s.accepted[k];
            a.id < |s.jobs| && s.jobs[a.id].Ask? && s.jobs[a.id].slot == a.slot && Answers(a.packet, s.jobs[a.id].msgid))
      && (forall i: int, life: nat :: AcceptCount(s.accepted, i, life) <= AskCount(s.jobs, i, life))
  {
    var free := RunInv(states, steps, false, n);
    var s := states[n];
    forall k | 0 <= k < |s.accepted|
      ensures var a := s.accepted[k];
        a.id < |s.jobs| && s.jobs[a.id].Ask? && s.jobs[a.id].slot == a.slot && Answers(a.packet, s.jobs[a.id].msgid)
    {
      assert AcceptOk(s, s.accepted[k], false);
    }
  }

  /** In every run in which outstanding queries of a connection always have
      distinct ticks, a reply is accepted only by the incarnation that asked. */
  lemma ReplyToAsker(states: seq<State>, steps: seq<Step>, n: nat)
    requires Run(states, steps) && n < |states|
    requires forall k :: 0 <= k < n ==> DistinctTicks(states[k])
    ensures forall k :: 0 <= k < |states[n].accepted| ==>
      var a := states[n].accepted[k];
      a.id < |states[n].jobs| && states[n].jobs[a.id].Ask? && states[n].jobs[a.id].life == a.life
  {
    var free := RunInv(states, steps, true, n);
    var s := states[n];
    forall k | 0 <= k < |s.accepted|
      ensures var a := s.accepted[k]; a.id < |s.jobs| && s.jobs[a.id].Ask? && s.jobs[a.id].life == a.life
    {
      assert AcceptOk(s, s.accepted[k], true);
    }
  }

  /** In every run the assertions of the program hold: a task is for the thread
      or worker that takes it, a connection that is handed out is idle, and the
      callback that discards data is set whenever a connection is used. */
  lemma AssertionsHold(states: seq<State>, steps: seq<Step>, n: nat)
    requires Run(states, steps) && n < |states|
    ensures var s := states[n];
      && |s.lives| == |s.conns|
      && (forall l :: 0 <= l < |s.ldaps| && s.ldaps[l] != [] ==> s.ldaps[l][0].receiver == l && Enabled(s, Notify(l, 0)))
      && (forall m :: 0 <= m < |s.mysqls| && s.mysqls[m] != [] ==> s.mysqls[m][0].receiver == m && Enabled(s, Work(m, 0, 0)))
      && (s.freeHead != NONE ==>
            InPool(s, s.freeHead) && var c := s.conns[s.freeHead]; !c.active && !c.closing && !c.closed)
      && (forall i :: CanFire(s, i) ==> s.conns[i].active && s.conns[i].discard)
  {
    var free := RunInv(states, steps, false, n);
    var s := states[n];
    forall l | 0 <= l < |s.ldaps| && s.ldaps[l] != []
      ensures s.ldaps[l][0].receiver == l && Enabled(s, Notify(l, 0))
    {
      TaskInv(s, free, false, l, 0);
    }
    forall m | 0 <= m < |s.mysqls| && s.mysqls[m] != []
      ensures s.mysqls[m][0].receiver == m && Enabled(s, Work(m, 0, 0))
    {
      WorkerInv(s, free, false, m, 0, 0);
      MysqlPopped(s, m, Gone, 0);
    }
    if s.freeHead != NONE {
      assert ConnOk(s, s.freeHead, s.freeHead in SlotSet(free));
    }
    forall i | CanFire(s, i)
      ensures s.conns[i].active && s.conns[i].discard
    {
      assert ConnOk(s, i, i in SlotSet(free));
    }
  }

  /** With distinct ticks, an answer for the present incarnation of a used
      connection is always accepted: the reply goes to the end of the connection's
      reply list, and replies leave from its front. */
  lemma AnswerArrives(states: seq<State>, steps: seq<Step>, n: nat, l: nat, written: nat)
    requires Run(states, steps) && n < |states|
    requires forall k :: 0 <= k <= n ==> DistinctTicks(states[k])
    requires var s := states[n];
      && Enabled(s, Notify(l, written)) && s.ldaps[l][0].job.Ask? && s.conns[s.ldaps[l][0].job.slot].active
      && s.ldaps[l][0].job.life == s.lives[s.ldaps[l][0].job.slot]
    ensures var s, s', t := states[n], TaskProcess(states[n], l, written), states[n].ldaps[l][0];
      var packet := if t.code == 0 then [SearchEntry(t.job.msgid), SearchDone(t.job.msgid)] else [SearchDone(t.job.msgid)];
      var queue := s.conns[t.job.slot].rpl + [packet];
      var k := if written <= |queue| then written else |queue|;
      && s'.accepted == s.accepted + [Accept(t.id, t.job.slot, t.job.life, packet)]
      && s'.conns[t.job.slot].rpl == queue[k..]
      && s'.conns[t.job.slot].sent == s.conns[t.job.slot].sent + queue[..k]
  {
    var free := RunInv(states, steps, true, n);
    var s := states[n];
    TaskInv(s, free, true, l, written);
    var t := s.ldaps[l][0];
    assert ConnOk(s, t.job.slot, t.job.slot in SlotSet(free));
    DroppedIsLate(s, free, t.id);
    assert JobOk(s, free, t.id);
  }

  // ----- without distinct ticks

  /** What becomes of an answer whose incarnation is over: the slot's present user
      gets it exactly if it keeps the same tick and has the same thread, and is
      untouched exactly if it does not keep that tick. */
  lemma StaleAnswer(states: seq<State>, steps: seq<Step>, n: nat, l: nat, written: nat)
    requires Run(states, steps) && n < |states|
    requires var s := states[n];
      && Enabled(s, Notify(l, written)) && s.ldaps[l][0].job.Ask?
      && s.ldaps[l][0].job.life != s.lives[s.ldaps[l][0].job.slot]
    ensures var s, s', t := states[n], TaskProcess(states[n], l, written), states[n].ldaps[l][0];
      var c := s.conns[t.job.slot];
      && (s'.accepted != s.accepted <==> t.job.tick in c.ticks && c.ldap == l)
      && (s'.accepted != s.accepted ==>
            |s'.accepted| == |s.accepted| + 1 && s'.accepted[|s.accepted|].id == t.id
            && s'.accepted[|s.accepted|].life == s.lives[t.job.slot] != t.job.life)
      && (s'.conns == s.conns <==> t.job.tick !in c.ticks)
  {
    var s, t := states[n], states[n].ldaps[l][0];
    var c := s.conns[t.job.slot];
    if t.job.tick in c.ticks {
      TickRemoved(c.ticks, t.job.tick, t.job.tick);
      assert TaskProcess(s, l, written).conns[t.job.slot].ticks == Remove(c.ticks, t.job.tick);
    }
  }

  /** The connection of the run below: its ticks, and whether it was registered. */
  function Client(fd: int, registered: bool, ticks: seq<int>, rpl: seq<seq<Msg>>): Conn {
    Conn(0, fd, NONE, true, false, false, registered, registered, registered, true, 0, ticks, [], rpl, [])
  }

  /** One connection, one worker and one thread; c is the connection. */
  ghost predicate Small(s: State, c: Conn) {
    |s.conns| == |s.lives| == |s.mysqls| == |s.ldaps| == 1 && |s.places| == |s.jobs| && s.conns[0] == c
  }

  lemma ConnectStep(s: State, fd: int)
    requires |s.conns| == 1 && Small(s, Blank(0, s.conns[0].fd, NONE)) && s.freeHead == 0
    ensures var s', job := IoRegister(s, fd, 0), Reg(0, s.lives[0] + 1);
      && Small(s', Client(fd, false, [], [])) && s'.lives[0] == s.lives[0] + 1
      && s'.ldaps[0] == s.ldaps[0] + [Task(|s.jobs|, job, 0, 0)] && s'.mysqls == s.mysqls
      && s'.jobs == s.jobs + [job] && s'.accepted == s.accepted && s'.freeHead == NONE
  {
  }

  lemma RegisterStep(s: State, fd: int)
    requires Small(s, Client(fd, false, [], [])) && |s.ldaps[0]| == 1
    requires var t := s.ldaps[0][0]; t.job.Reg? && t.job.slot == 0 && t.id < |s.jobs|
    ensures var s' := TaskProcess(s, 0, 0);
      && Small(s', Client(fd, true, [], [])) && s'.ldaps[0] == [] && s'.mysqls == s.mysqls && s'.lives == s.lives
      && s'.jobs == s.jobs && s'.accepted == s.accepted && s'.freeHead == s.freeHead
  {
  }

  function Asking(msgid: int): IoEvent {
    IoEvent(false, true, [Search(msgid, OtherFilter, 0, 7)], false, false, 0, false)
  }

  /** One search with tick 7 is read. */
  lemma AskStep(s: State, fd: int, msgid: int)
    requires Small(s, Client(fd, true, [], []))
    ensures var s', job := HandleEvent(s, 0, Asking(msgid)), Ask(0, s.lives[0], msgid, OtherFilter, 7);
      && Small(s', Client(fd, true, [7], [])) && s'.ldaps == s.ldaps && s'.lives == s.lives
      && s'.mysqls[0] == s.mysqls[0] + [Task(|s.jobs|, job, 0, 0)]
      && s'.jobs == s.jobs + [job] && s'.accepted == s.accepted && s'.freeHead == s.freeHead
  {
    var r := Search(msgid, OtherFilter, 0, 7);
    var c := s.conns[0];
    assert [] + [r] == [r] && [r][1..] == [] && [] + [7] == [7];
    var s1 := SetConn(s, 0, c.(req := [r]));
    assert ReadPart(s, 0, Asking(msgid)) == ProcessRequests(s1, 0);
    var s3 := PushQuery(SetConn(s1, 0, c), 0, r);
    assert ProcessRequests(s1, 0) == ProcessRequests(s3, 0);
    assert WritePart(s3.conns[0], Asking(msgid)) == s3.conns[0];
  }

  function TimingOut(): IoEvent {
    IoEvent(true, false, [], false, false, 0, false)
  }

  lemma TimeoutStep(s: State, fd: int, ticks: seq<int>)
    requires Small(s, Client(fd, true, ticks, [])) && s.freeHead == NONE
    ensures var s' := HandleEvent(s, 0, TimingOut());
      && Small(s', Blank(0, 0, NONE)) && s'.freeHead == 0 && s'.mysqls == s.mysqls && s'.ldaps == s.ldaps
      && s'.lives == s.lives && s'.jobs == s.jobs && s'.accepted == s.accepted
  {
  }

  lemma WorkStep(s: State, c: Conn)
    requires Small(s, c) && c.ldap == 0 && s.mysqls[0] != [] && s.ldaps[0] == []
    requires var t := s.mysqls[0][0]; t.id < |s.jobs| && t.job.Ask? && t.job.filter.OtherFilter? && t.job.slot == 0 && t.receiver == 0
    ensures var s', t := WorkerStep(s, 0, 0, 0), s.mysqls[0][0];
      && Small(s', c) && s'.ldaps[0] == [Task(t.id, t.job, 0, 0)] && s'.lives == s.lives
      && s'.jobs == s.jobs && s'.accepted == s.accepted
  {
  }

  lemma AnswerStep(s: State, fd: int)
    requires Small(s, Client(fd, true, [7], [])) && s.ldaps[0] != []
    requires var t := s.ldaps[0][0]; t.id < |s.jobs| && t.job.Ask? && t.job.slot == 0 && t.job.tick == 7
    ensures var s', t := TaskProcess(s, 0, 0), s.ldaps[0][0];
      s'.jobs == s.jobs && s'.accepted == s.accepted + [Accept(t.id, 0, s.lives[0], SearchPacket(t.job.msgid, t.code))]
  {
  }

  /** A client connects, is registered and asks. */
  lemma ClientAsks(states: seq<State>, steps: seq<Step>, fd: int, msgid: int)
    returns (states': seq<State>, steps': seq<Step>)
    requires Run(states, steps)
    requires var s := states[|steps|];
      |s.conns| == 1 && Small(s, Blank(0, s.conns[0].fd, NONE)) && s.freeHead == 0 && s.ldaps[0] == []
    ensures steps' == steps + [Connect(fd, 0), Notify(0, 0), Fire(0, Asking(msgid))] && Run(states', steps')
    ensures var s, s' := states[|steps|], states'[|steps'|];
      && Small(s', Client(fd, true, [7], [])) && s'.lives[0] == s.lives[0] + 1 && s'.ldaps[0] == []
      && s'.freeHead == NONE && s'.accepted == s.accepted
      && s'.mysqls[0] == s.mysqls[0] + [Task(|s.jobs| + 1, Ask(0, s.lives[0] + 1, msgid, OtherFilter, 7), 0, 0)]
      && s'.jobs == s.jobs + [Reg(0, s.lives[0] + 1)] + [Ask(0, s.lives[0] + 1, msgid, OtherFilter, 7)]
  {
    states', steps' := states, steps;
    ConnectStep(states'[|steps'|], fd);
    states', steps' := RunMore(states', steps', Connect(fd, 0));
    RegisterStep(states'[|steps'|], fd);
    states', steps' := RunMore(states', steps', Notify(0, 0));
    AskStep(states'[|steps'|], fd, msgid);
    states', steps' := RunMore(states', steps', Fire(0, Asking(msgid)));
  }

  /** Two queries with the tick 7, one before and one after the connection was
      recycled, and the answer to the first one. */
  function Collision(): seq<Step> {
    [Connect(5, 0), Notify(0, 0), Fire(0, Asking(1)), Fire(0, TimingOut()),
     Connect(6, 0), Notify(0, 0), Fire(0, Asking(2)), Work(0, 0, 0), Notify(0, 0)]
  }

  /** The first client asks and is timed out. */
  lemma FirstClientGone() returns (states: seq<State>, steps: seq<Step>)
    ensures Run(states, steps) && steps == Collision()[..4]
    ensures var s := states[|steps|]; var job := Ask(0, 1, 1, OtherFilter, 7);
      && Small(s, Blank(0, 0, NONE)) && s.freeHead == 0 && s.lives[0] == 1 && s.ldaps[0] == [] && s.accepted == []
      && s.mysqls[0] == [Task(1, job, 0, 0)] && s.jobs == [Reg(0, 1), job]
  {
    states, steps := [Initial(1, 1, 1)], [];
    assert Started(states[0]);
    states, steps := ClientAsks(states, steps, 5, 1);
    TimeoutStep(states[|steps|], 5, [7]);
    states, steps := RunMore(states, steps, Fire(0, TimingOut()));
  }

  /** The reply to message 1 of the first client is put on the reply list of the
      second one. */
  lemma LateReplyMisdelivered() returns (states: seq<State>)
    ensures Run(states, Collision())
    ensures var s := states[|states| - 1];
      && |s.accepted| == 1 && s.accepted[0].id < |s.jobs| && s.jobs[s.accepted[0].id].Ask?
      && s.jobs[s.accepted[0].id].life == 1 && s.accepted[0].life == 2
      && s.accepted[0].packet == SearchPacket(1, 0)
  {
    var steps;
    states, steps := FirstClientGone();
    states, steps := ClientAsks(states, steps, 6, 2);
    WorkStep(states[|steps|], Client(6, true, [7], []));
    states, steps := RunMore(states, steps, Work(0, 0, 0));
    AnswerStep(states[|steps|], 6);
    states, steps := RunMore(states, steps, Notify(0, 0));
    assert steps == Collision();
  }
}
