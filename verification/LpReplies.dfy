/** What is in the reply lists of the connections themselves: answers to their own
    queries, every one of them, in order. */
module LpReplies {
  import opened LpProtocol
  import opened LpInvariant
  import opened LpSteps
  import opened LpRuns

  ghost predicate IsBind(p: seq<Msg>) {
    |p| == 1 && p[0].BindResponse?
  }

  /** The packets that are not bind responses. */
  ghost function Searches(ps: seq<seq<Msg>>): seq<seq<Msg>> {
    if ps == [] then []
    else
      var n := |ps| - 1;
      Searches(ps[..n]) + if IsBind(ps[n]) then [] else [ps[n]]
  }

  /** The packets accepted for one incarnation of slot i. */
  ghost function AcceptedFor(accepted: seq<Accept>, i: nat, life: nat): seq<seq<Msg>> {
    if accepted == [] then []
    else
      var n := |accepted| - 1;
      AcceptedFor(accepted[..n], i, life) +
      if accepted[n].slot == i && accepted[n].life == life then [accepted[n].packet] else []
  }

  lemma {:induction false} SearchesCat(a: seq<seq<Msg>>, b: seq<seq<Msg>>)
    ensures Searches(a + b) == Searches(a) + Searches(b)
    decreases |b|
  {
    if b == [] {
      assert a + b == a;
    } else {
      var n := |b| - 1;
      SearchesCat(a, b[..n]);
      assert (a + b)[..|a| + n] == a + b[..n];
    }
  }

  lemma {:induction false} SearchesHas(ps: seq<seq<Msg>>, p: seq<Msg>)
    requires p in ps && !IsBind(p)
    ensures p in Searches(ps)
    decreases |ps|
  {
    var n := |ps| - 1;
    if p != ps[n] {
      assert ps == ps[..n] + [ps[n]];
      SearchesHas(ps[..n], p);
    }
  }

  lemma {:induction false} AcceptedHas(accepted: seq<Accept>, i: nat, life: nat, p: seq<Msg>) returns (k: nat)
    requires p in AcceptedFor(accepted, i, life)
    ensures k < |accepted| && accepted[k].slot == i && accepted[k].life == life && accepted[k].packet == p
    decreases |accepted|
  {
    var n := |accepted| - 1;
    if p in AcceptedFor(accepted[..n], i, life) {
      k := AcceptedHas(accepted[..n], i, life, p);
    } else {
      k := n;
    }
  }

  lemma {:induction false} AcceptedNone(accepted: seq<Accept>, i: nat, life: nat)
    requires forall k :: 0 <= k < |accepted| ==> accepted[k].slot != i || accepted[k].life != life
    ensures AcceptedFor(accepted, i, life) == []
    decreases |accepted|
  {
    if accepted != [] {
      AcceptedNone(accepted[..|accepted| - 1], i, life);
    }
  }

  lemma AcceptedMore(accepted: seq<Accept>, a: Accept, i: nat, life: nat)
    ensures AcceptedFor(accepted + [a], i, life) ==
      AcceptedFor(accepted, i, life) + if a.slot == i && a.life == life then [a.packet] else []
  {
    assert (accepted + [a])[..|accepted|] == accepted;
  }

  /** Everything that was put on a used connection's list, sent or not. */
  ghost function PutOn(c: Conn): seq<seq<Msg>> {
    c.sent + c.rpl
  }

  /** On a used connection, the accepted packets of its incarnation were all put on the
      list, in order, and bind responses besides; a free one has no list. */
  ghost predicate SlotOk(s: State, i: nat)
    requires i < |s.conns| == |s.lives|
  {
    var c := s.conns[i];
    if c.active then Searches(PutOn(c)) == AcceptedFor(s.accepted, i, s.lives[i]) else c.rpl == [] && c.sent == []
  }

  ghost predicate ListsOk(s: State) {
    && |s.lives| == |s.conns|
    && (forall i :: 0 <= i < |s.conns| ==> SlotOk(s, i))
    && forall k :: 0 <= k < |s.accepted| ==>
         s.accepted[k].slot < |s.lives| && s.accepted[k].life <= s.lives[s.accepted[k].slot]
  }

  /** What happened to a used connection put no packet but bind responses on its list,
      or freed it. */
  ghost predicate OnlyBinds(c: Conn, c': Conn) {
    if c'.active then Searches(PutOn(c')) == Searches(PutOn(c)) else c'.rpl == [] && c'.sent == []
  }

  /** Slot i is all that changed. */
  ghost predicate Answered(s: State, i: int, s': State) {
    && InPool(s, i) && |s'.conns| == |s.conns| && s'.lives == s.lives && s'.accepted == s.accepted
    && (forall k :: 0 <= k < |s.conns| && k != i ==> s'.conns[k] == s.conns[k])
    && s.conns[i].active && OnlyBinds(s.conns[i], s'.conns[i])
  }

  lemma AnsweredTwice(s: State, i: int, s1: State, s2: State)
    requires Answered(s, i, s1) && Answered(s1, i, s2)
    ensures Answered(s, i, s2)
  {
    hide Searches, PutOn;
  }

  lemma RequestAnswered(s: State, i: int, r: Request)
    requires InPool(s, i) && s.conns[i].active
    ensures Answered(s, i, DoRequest(s, i, r)) && DoRequest(s, i, r).conns[i].active
  {
    if r.Bind? {
      BindPutOn(s.conns[i], r.msgid);
    }
    hide Searches, PutOn;
  }

  lemma BindPutOn(c: Conn, msgid: int)
    ensures Searches(PutOn(c.(rpl := c.rpl + [[BindResponse(msgid)]]))) == Searches(PutOn(c))
  {
    var p := [BindResponse(msgid)];
    assert c.sent + (c.rpl + [p]) == (c.sent + c.rpl) + [p];
    SearchesCat(c.sent + c.rpl, [p]);
    assert [p][..0] == [] && Searches([p][..0]) == [];
  }

  lemma {:induction false} RequestsAnswered(s: State, i: int)
    requires InPool(s, i) && s.conns[i].active
    ensures Answered(s, i, ProcessRequests(s, i).0) && ProcessRequests(s, i).0.conns[i].active
    decreases |s.conns[i].req|
  {
    hide Searches;
    var c := s.conns[i];
    if c.req != [] {
      var s1 := SetConn(s, i, c.(req := c.req[1..]));
      assert Answered(s, i, s1);
      if !c.req[0].NoMsgid? {
        var s2 := DoRequest(s1, i, c.req[0]);
        RequestAnswered(s1, i, c.req[0]);
        RequestsAnswered(s2, i);
        hide Answered;
        AnsweredTwice(s, i, s1, s2);
        AnsweredTwice(s, i, s2, ProcessRequests(s2, i).0);
      }
    }
  }

  lemma ConnAnswered(s: State, i: int, c: Conn)
    requires InPool(s, i) && s.conns[i].active && OnlyBinds(s.conns[i], c)
    ensures Answered(s, i, SetConn(s, i, c))
  {
    hide OnlyBinds;
  }

  lemma WriteKeeps(c: Conn, ev: IoEvent)
    requires c.active
    ensures OnlyBinds(c, WritePart(c, ev)) && WritePart(c, ev).active
  {
    hide Searches;
    WritePutOn(c, ev.written);
  }

  lemma WritePutOn(c: Conn, written: nat)
    ensures PutOn(WriteReplies(c, written)) == PutOn(c)
  {
    var n := if written <= |c.rpl| then written else |c.rpl|;
    assert (c.sent + c.rpl[..n]) + c.rpl[n..] == c.sent + c.rpl;
  }

  lemma FreeAnswered(s: State, i: int)
    requires InPool(s, i) && s.conns[i].active
    ensures Answered(s, i, CloseIfClosed(s, i))
  {
    hide Searches;
  }

  lemma EventAnswered(s: State, i: int, ev: IoEvent)
    requires InPool(s, i) && s.conns[i].active
    ensures Answered(s, i, HandleEvent(s, i, ev))
  {
    hide Searches, Answered;
    var c := s.conns[i];
    ConnAnswered(s, i, c);
    if !c.closing && ev.timeout {
      var s1 := SetConn(s, i, IoUnregister(c));
      ConnAnswered(s, i, IoUnregister(c));
      FreeAnswered(s1, i);
      AnsweredTwice(s, i, s1, CloseIfClosed(s1, i));
    } else if !c.closing {
      ReadAnswered(s, i, ev);
      var (s1, on) := ReadPart(s, i, ev);
      var c1 := WritePart(s1.conns[i], ev);
      var s2 := SetConn(s1, i, c1);
      WriteKeeps(s1.conns[i], ev);
      ConnAnswered(s1, i, c1);
      FreeAnswered(s2, i);
      AnsweredTwice(s, i, s1, s2);
      AnsweredTwice(s, i, s2, CloseIfClosed(s2, i));
    }
    assert SetConn(s, i, c) == s;
  }

  lemma ReadAnswered(s: State, i: int, ev: IoEvent)
    requires InPool(s, i) && s.conns[i].active
    ensures Answered(s, i, ReadPart(s, i, ev).0) && ReadPart(s, i, ev).0.conns[i].active
  {
    hide Searches;
    var c := s.conns[i].(req := s.conns[i].req + ev.arrived);
    var c1 := if ev.readFails then IoUnregister(c) else c;
    var s1 := SetConn(s, i, c1);
    RequestsAnswered(s1, i);
    ConnAnswered(s, i, c1);
    AnsweredTwice(s, i, s1, ProcessRequests(s1, i).0);
  }

  lemma AnsweredLists(s: State, i: int, s': State)
    requires ListsOk(s) && Answered(s, i, s')
    ensures ListsOk(s')
  {
    hide Searches, AcceptedFor, PutOn;
    forall k | 0 <= k < |s'.conns|
      ensures SlotOk(s', k)
    {
      assert SlotOk(s, k) && SlotOk(s, i);
    }
  }

  /** A connection that is handed out has an empty list, and a new incarnation no
      replies. */
  lemma ConnectLists(s: State, free: Slots, fd: int, l: nat)
    requires Core(s, free) && ListsOk(s) && l < |s.ldaps| && (s.freeHead == NONE || InPool(s, s.freeHead))
    ensures ListsOk(IoRegister(s, fd, l))
  {
    hide AcceptedFor;
    var s' := IoRegister(s, fd, l);
    if s.freeHead != NONE {
      assert ConnOk(s, s.freeHead, s.freeHead in SlotSet(free));
      AcceptedNone(s.accepted, s.freeHead, s.lives[s.freeHead] + 1);
    }
    forall k | 0 <= k < |s'.conns|
      ensures SlotOk(s', k)
    {
      assert SlotOk(s, k);
    }
  }

  /** The reply to an answer is put on the list when it is accepted. */
  lemma TaskLists(s: State, l: nat, written: nat)
    requires ListsOk(s) && Enabled(s, Notify(l, written))
    requires s.ldaps[l][0].job.Ask? ==> s.conns[s.ldaps[l][0].job.slot].ticks != [] ==> s.conns[s.ldaps[l][0].job.slot].active
    requires s.ldaps[l][0].job.Reg? ==> s.conns[s.ldaps[l][0].job.slot].active
    ensures ListsOk(TaskProcess(s, l, written))
  {
    hide Searches, AcceptedFor;
    var s', i, t := TaskProcess(s, l, written), s.ldaps[l][0].job.slot, s.ldaps[l][0];
    var c, c' := s.conns[i], s'.conns[i];
    var accepts := t.job.Ask? && t.job.tick in c.ticks && c.ldap == l;
    if accepts {
      AcceptedPutOn(c, t.job.msgid, t.code, Remove(c.ticks, t.job.tick), written);
    }
    forall k | 0 <= k < |s'.conns|
      ensures SlotOk(s', k)
    {
      assert SlotOk(s, k);
      if accepts {
        AcceptedMore(s.accepted, s'.accepted[|s.accepted|], k, s.lives[k]);
        if k != i {
          assert AcceptedFor(s.accepted, k, s.lives[k]) + [] == AcceptedFor(s.accepted, k, s.lives[k]);
        }
      }
    }
  }

  lemma AcceptedPutOn(c: Conn, msgid: int, code: int, ticks: seq<int>, written: nat)
    ensures var p := SearchPacket(msgid, code);
      Searches(PutOn(WriteReplies(c.(ticks := ticks, rpl := c.rpl + [p]), written))) == Searches(PutOn(c)) + [p]
  {
    var p := SearchPacket(msgid, code);
    var c1 := c.(ticks := ticks, rpl := c.rpl + [p]);
    WritePutOn(c1, written);
    assert PutOn(c1) == PutOn(c) + [p];
    SearchesCat(PutOn(c), [p]);
    assert [p][..0] == [] && Searches([p][..0]) == [];
  }

  lemma NextLists(s: State, free: Slots, step: Step)
    requires Inv(s, free, false) && ListsOk(s) && Enabled(s, step)
    ensures ListsOk(Next(s, step))
  {
    hide ListsOk, SlotOk;
    match step
    case Connect(fd, l) => ConnectLists(s, free, fd, l);
    case Fire(i, ev) =>
      assert ConnOk(s, i, i in SlotSet(free));
      EventAnswered(s, i, ev);
      AnsweredLists(s, i, Next(s, step));
    case Notify(l, written) =>
      TaskTaken(s, free, l);
      assert ConnOk(s, s.ldaps[l][0].job.slot, s.ldaps[l][0].job.slot in SlotSet(free));
      TaskLists(s, l, written);
    case Work(m, user, list) => SameLists(s, Next(s, step));
  }

  lemma SameLists(s: State, s': State)
    requires ListsOk(s) && s'.conns == s.conns && s'.lives == s.lives && s'.accepted == s.accepted
    ensures ListsOk(s')
  {
    forall k | 0 <= k < |s'.conns|
      ensures SlotOk(s', k)
    {
      assert SlotOk(s, k);
    }
  }

  lemma {:induction false} RunLists(states: seq<State>, steps: seq<Step>, n: nat)
    requires Run(states, steps) && n < |states|
    ensures ListsOk(states[n])
  {
    if n > 0 {
      RunLists(states, steps, n - 1);
      var free := RunInv(states, steps, false, n - 1);
      assert states[n - 1 + 1] == Next(states[n - 1], steps[n - 1]);
      hide ListsOk, Inv, Next, Enabled;
      NextLists(states[n - 1], free, steps[n - 1]);
    } else {
      hide Searches, AcceptedFor;
    }
  }

  /** In every run, the accepted replies of a used connection's incarnation are, in
      order, the search replies that were sent to it and those still on its list. */
  lemma AcceptedAreSent(states: seq<State>, steps: seq<Step>, n: nat, i: nat)
    requires Run(states, steps) && n < |states| && i < |states[n].conns| && states[n].conns[i].active
    ensures |states[n].lives| == |states[n].conns|
    ensures var s := states[n];
      Searches(s.conns[i].sent) + Searches(s.conns[i].rpl) == AcceptedFor(s.accepted, i, s.lives[i])
  {
    RunLists(states, steps, n);
    assert SlotOk(states[n], i);
    SearchesCat(states[n].conns[i].sent, states[n].conns[i].rpl);
  }

  /** The query that a packet on the list of slot i answers. */
  ghost predicate AnswersQuery(s: State, i: int, id: nat, p: seq<Msg>) {
    id < |s.jobs| && s.jobs[id].Ask? && s.jobs[id].slot == i && Answers(p, s.jobs[id].msgid)
  }

  /** In every run, whatever was sent to a connection or is on its reply list answers a
      bind request, or a query of that slot with its message id; with distinct ticks, a
      query of the slot's present incarnation. */
  lemma ListedRepliesBelong(states: seq<State>, steps: seq<Step>, n: nat, i: int, p: seq<Msg>)
    requires Run(states, steps) && n < |states|
    requires 0 <= i < |states[n].conns| && p in PutOn(states[n].conns[i]) && !IsBind(p)
    ensures |states[n].lives| == |states[n].conns|
    ensures exists id: nat :: AnswersQuery(states[n], i, id, p)
    ensures (forall k :: 0 <= k < n ==> DistinctTicks(states[k])) ==>
      exists id: nat :: AnswersQuery(states[n], i, id, p) && states[n].jobs[id].life == states[n].lives[i]
  {
    hide Searches, AcceptedFor;
    var s := states[n];
    RunLists(states, steps, n);
    assert SlotOk(s, i);
    SearchesHas(PutOn(s.conns[i]), p);
    var k := AcceptedHas(s.accepted, i, s.lives[i], p);
    ReplySafety(states, steps, n);
    assert AnswersQuery(s, i, s.accepted[k].id, p);
    if forall k :: 0 <= k < n ==> DistinctTicks(states[k]) {
      ReplyToAsker(states, steps, n);
    }
  }
}
