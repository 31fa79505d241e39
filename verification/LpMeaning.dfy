/** What requests, events and lookups lead to, told by the requests and messages
    themselves. */
module LpMeaning {
  import opened LpProtocol
  import opened LpInvariant
  import opened LpSteps
  import opened LpRuns

  // ----- requests

  /** The requests before the first one without a message id. */
  ghost function Before(reqs: seq<Request>): (r: seq<Request>)
    ensures |r| <= |reqs| && r == reqs[..|r|]
    ensures |r| < |reqs| ==> reqs[|r|].NoMsgid?
    ensures forall k :: 0 <= k < |r| ==> !r[k].NoMsgid?
  {
    if reqs == [] || reqs[0].NoMsgid? then [] else [reqs[0]] + Before(reqs[1..])
  }

  /** The packets that answer the bind requests. */
  ghost function BindsOf(reqs: seq<Request>): seq<seq<Msg>> {
    if reqs == [] then []
    else (if reqs[0].Bind? then [[BindResponse(reqs[0].msgid)]] else []) + BindsOf(reqs[1..])
  }

  /** The queries that the search requests make. */
  ghost function AsksOf(reqs: seq<Request>, i: nat, life: nat): seq<Job> {
    if reqs == [] then []
    else
      (if reqs[0].Search? then [Ask(i, life, reqs[0].msgid, reqs[0].filter, reqs[0].tick)] else []) +
      AsksOf(reqs[1..], i, life)
  }

  ghost function TicksOf(reqs: seq<Request>): seq<int> {
    if reqs == [] then [] else (if reqs[0].Search? then [reqs[0].tick] else []) + TicksOf(reqs[1..])
  }

  /** Some request is an unbind request. */
  ghost predicate Unbinds(reqs: seq<Request>) {
    exists k :: 0 <= k < |reqs| && reqs[k].Unbind?
  }

  /** Whether the whole list has message ids. */
  ghost predicate AllIds(reqs: seq<Request>) {
    forall k :: 0 <= k < |reqs| ==> !reqs[k].NoMsgid?
  }

  /** Every bind request is answered, every search request becomes a query with its
      message id, filter and tick, and an unbind request closes the connection; all up
      to a request without a message id. */
  lemma {:induction false} RequestsMean(s: State, i: nat)
    requires InPool(s, i)
    ensures var (s', on) := ProcessRequests(s, i);
      var c, c', done := s.conns[i], s'.conns[i], Before(s.conns[i].req);
      && (on <==> AllIds(c.req))
      && c'.rpl == c.rpl + BindsOf(done) && c'.sent == c.sent && c'.ticks == c.ticks + TicksOf(done)
      && s'.jobs == s.jobs + AsksOf(done, i, s.lives[i]) && s'.lives == s.lives && s'.freed == s.freed
      && (c'.closed <==> c.closed || Unbinds(done)) && c'.active == c.active
      && c'.req == if on then [] else c.req[|done| + 1..]
    decreases |s.conns[i].req|
  {
    hide BindsOf, AsksOf, TicksOf, Unbinds, AllIds, DoRequest, Before;
    var c := s.conns[i];
    NoRequests(c.req, c.rpl, c.ticks, s.jobs, i, s.lives[i]);
    if c.req != [] && !c.req[0].NoMsgid? {
      var r, rest := c.req[0], c.req[1..];
      var s1 := SetConn(s, i, c.(req := rest));
      assert c.req == [r] + rest;
      OneRequest(s1, i, r);
      RequestsMean(DoRequest(s1, i, r), i);
      MoreRequests(r, rest, c.rpl, c.ticks, s.jobs, i, s.lives[i]);
    }
  }

  lemma NoRequests(reqs: seq<Request>, rpl: seq<seq<Msg>>, ticks: seq<int>, jobs: seq<Job>, i: nat, life: nat)
    ensures reqs == [] ==> AllIds(reqs)
    ensures reqs != [] && reqs[0].NoMsgid? ==> !AllIds(reqs)
    ensures reqs == [] || reqs[0].NoMsgid? ==>
      && Before(reqs) == [] && !Unbinds(Before(reqs)) && rpl + BindsOf(Before(reqs)) == rpl
      && ticks + TicksOf(Before(reqs)) == ticks && jobs + AsksOf(Before(reqs), i, life) == jobs
  {
  }

  lemma OneRequest(s: State, i: nat, r: Request)
    requires InPool(s, i) && !r.NoMsgid?
    ensures InPool(DoRequest(s, i, r), i)
    ensures var s' := DoRequest(s, i, r); var c, c' := s.conns[i], s'.conns[i];
      && c'.rpl == (if r.Bind? then c.rpl + [[BindResponse(r.msgid)]] else c.rpl) && c'.sent == c.sent
      && c'.ticks == (if r.Search? then c.ticks + [r.tick] else c.ticks)
      && s'.jobs == (if r.Search? then s.jobs + [Ask(i, s.lives[i], r.msgid, r.filter, r.tick)] else s.jobs)
      && s'.lives == s.lives && s'.freed == s.freed && c'.active == c.active && c'.req == c.req
      && (c'.closed <==> c.closed || r.Unbind?)
  {
  }

  lemma MoreRequests(r: Request, rest: seq<Request>, rpl: seq<seq<Msg>>, ticks: seq<int>, jobs: seq<Job>, i: nat, life: nat)
    requires !r.NoMsgid?
    ensures var reqs, done := [r] + rest, Before(rest);
      && Before(reqs) == [r] + done && reqs[0] == r && reqs[1..] == rest
      && (AllIds(rest) || |done| < |rest|)
      && (AllIds(reqs) <==> AllIds(rest)) && (Unbinds(Before(reqs)) <==> r.Unbind? || Unbinds(done))
      && rpl + BindsOf(Before(reqs)) == (if r.Bind? then rpl + [[BindResponse(r.msgid)]] else rpl) + BindsOf(done)
      && ticks + TicksOf(Before(reqs)) == (if r.Search? then ticks + [r.tick] else ticks) + TicksOf(done)
      && jobs + AsksOf(Before(reqs), i, life) ==
           (if r.Search? then jobs + [Ask(i, life, r.msgid, r.filter, r.tick)] else jobs) + AsksOf(done, i, life)
  {
    var reqs, done := [r] + rest, Before(rest);
    BeforeMore(r, rest);
    IdsMore(r, rest);
    hide Before, AllIds;
    UnbindsMore(r, done);
    BindsMore(r, done, rpl);
    TicksMore(r, done, ticks);
    AsksMore(r, done, jobs, i, life);
  }

  lemma BeforeMore(r: Request, rest: seq<Request>)
    requires !r.NoMsgid?
    ensures Before([r] + rest) == [r] + Before(rest)
  {
    assert ([r] + rest)[1..] == rest;
  }

  lemma IdsMore(r: Request, rest: seq<Request>)
    requires !r.NoMsgid?
    ensures AllIds([r] + rest) <==> AllIds(rest)
    ensures AllIds(rest) || |Before(rest)| < |rest|
  {
    if AllIds([r] + rest) {
      forall k | 0 <= k < |rest|
        ensures !rest[k].NoMsgid?
      {
        assert rest[k] == ([r] + rest)[k + 1];
      }
    }
  }

  lemma UnbindsMore(r: Request, done: seq<Request>)
    ensures Unbinds([r] + done) <==> r.Unbind? || Unbinds(done)
  {
    if Unbinds(done) {
      var k :| 0 <= k < |done| && done[k].Unbind?;
      assert ([r] + done)[k + 1] == done[k];
    }
    if r.Unbind? {
      assert ([r] + done)[0] == r;
    }
  }

  lemma BindsMore(r: Request, done: seq<Request>, rpl: seq<seq<Msg>>)
    ensures rpl + BindsOf([r] + done) == (if r.Bind? then rpl + [[BindResponse(r.msgid)]] else rpl) + BindsOf(done)
  {
    assert ([r] + done)[1..] == done;
  }

  lemma TicksMore(r: Request, done: seq<Request>, ticks: seq<int>)
    ensures ticks + TicksOf([r] + done) == (if r.Search? then ticks + [r.tick] else ticks) + TicksOf(done)
  {
    assert ([r] + done)[1..] == done;
  }

  lemma AsksMore(r: Request, done: seq<Request>, jobs: seq<Job>, i: nat, life: nat)
    ensures jobs + AsksOf([r] + done, i, life) ==
      (if r.Search? then jobs + [Ask(i, life, r.msgid, r.filter, r.tick)] else jobs) + AsksOf(done, i, life)
  {
    assert ([r] + done)[1..] == done;
  }

  // ----- when a connection is freed

  /** An event frees an open connection exactly if it is a timeout, or nothing stops
      the handler on its way to the end and the read or the write failed or the client
      unbound. */
  lemma EventFrees(s: State, i: nat, ev: IoEvent)
    requires InPool(s, i) && s.conns[i].active && !s.conns[i].closing && !s.conns[i].closed
    ensures var s', reqs := HandleEvent(s, i, ev), s.conns[i].req + ev.arrived;
      var ends :=
        ev.timeout ||
        ((ev.read ==> AllIds(reqs)) &&
         ((ev.read && (ev.readFails || Unbinds(reqs))) || (ev.write && ev.writeFails)));
      && s'.freed == (if ends then s.freed + [(i, s.lives[i])] else s.freed)
      && (s'.conns[i].active <==> !ends)
  {
    hide Unbinds, AllIds, ReadPart;
    if !ev.timeout {
      ReadMeans(s, i, ev);
    }
  }

  /** An event that does not free the connection sends what was on the list and the
      bind responses to what was read, from the front. */
  lemma EventSends(s: State, i: nat, ev: IoEvent)
    requires InPool(s, i) && s.conns[i].active && !s.conns[i].closing && !s.conns[i].closed
    requires !ev.timeout && HandleEvent(s, i, ev).conns[i].active && (ev.read ==> AllIds(s.conns[i].req + ev.arrived))
    ensures var c, c', reqs := s.conns[i], HandleEvent(s, i, ev).conns[i], s.conns[i].req + ev.arrived;
      var queue := if ev.read then c.rpl + BindsOf(reqs) else c.rpl;
      var k := if !ev.write then 0 else if ev.written <= |queue| then ev.written else |queue|;
      c'.rpl == queue[k..] && c'.sent == c.sent + queue[..k]
  {
    hide Unbinds, AllIds, ReadPart, BindsOf;
    ReadMeans(s, i, ev);
    var c := ReadPart(s, i, ev).0.conns[i];
    assert c.rpl[0..] == c.rpl && c.sent + c.rpl[..0] == c.sent;
  }

  /** What reading does, as far as freeing goes. */
  lemma ReadMeans(s: State, i: nat, ev: IoEvent)
    requires InPool(s, i) && s.conns[i].active && !s.conns[i].closed
    ensures var (s', on) := ReadPart(s, i, ev); var reqs := s.conns[i].req + ev.arrived;
      && (on <==> ev.read ==> AllIds(reqs)) && s'.freed == s.freed && s'.lives == s.lives && s'.conns[i].active
      && (on ==> (s'.conns[i].closed <==> ev.read && (ev.readFails || Unbinds(reqs))))
      && s'.conns[i].sent == s.conns[i].sent
      && (on ==> s'.conns[i].rpl == if ev.read then s.conns[i].rpl + BindsOf(reqs) else s.conns[i].rpl)
  {
    hide Unbinds, AllIds, Before, ProcessRequests, BindsOf, AsksOf, TicksOf;
    if ev.read {
      var c := s.conns[i].(req := s.conns[i].req + ev.arrived);
      RequestsMean(SetConn(s, i, if ev.readFails then IoUnregister(c) else c), i);
      BeforeAll(c.req);
    }
  }

  lemma BeforeAll(reqs: seq<Request>)
    ensures AllIds(reqs) ==> Before(reqs) == reqs
  {
  }

  // ----- what a reply says

  /** In a step before step n, a worker took query id, and the lookups found what the
      filter asks for exactly if `found`. */
  ghost predicate Looked(states: seq<State>, steps: seq<Step>, n: nat, id: nat, filter: Filter, found: bool) {
    exists m :: 0 <= m < n && LookedAt(states, steps, m, id, filter, found)
  }

  ghost predicate LookedAt(states: seq<State>, steps: seq<Step>, m: nat, id: nat, filter: Filter, found: bool) {
    && m < |steps| && m < |states| && steps[m].Work?
    && steps[m].m < |states[m].mysqls| && states[m].mysqls[steps[m].m] != []
    && states[m].mysqls[steps[m].m][0].id == id && (found <==> Found(filter, steps[m].user, steps[m].list))
  }

  ghost predicate AnswerLooked(states: seq<State>, steps: seq<Step>, n: nat, t: Task) {
    t.job.Ask? ==> Looked(states, steps, n, t.id, t.job.filter, t.code == 0)
  }

  ghost predicate ReplyLooked(states: seq<State>, steps: seq<Step>, n: nat, s: State, a: Accept) {
    && a.id < |s.jobs| && s.jobs[a.id].Ask?
    && Looked(states, steps, n, a.id, s.jobs[a.id].filter, SearchEntry(s.jobs[a.id].msgid) in a.packet)
  }

  ghost predicate AllLooked(states: seq<State>, steps: seq<Step>, n: nat, s: State) {
    && (forall l, k :: 0 <= l < |s.ldaps| && 0 <= k < |s.ldaps[l]| ==> AnswerLooked(states, steps, n, s.ldaps[l][k]))
    && (forall k :: 0 <= k < |s.accepted| ==> ReplyLooked(states, steps, n, s, s.accepted[k]))
  }

  lemma LookedStill(states: seq<State>, steps: seq<Step>, n: nat, id: nat, filter: Filter, found: bool)
    requires Looked(states, steps, n, id, filter, found)
    ensures Looked(states, steps, n + 1, id, filter, found)
  {
  }

  /** In every run, a reply carries an entry exactly if the lookup for its query found
      what the filter asks for. */
  lemma {:induction false} RunLooked(states: seq<State>, steps: seq<Step>, n: nat)
    requires Run(states, steps) && n < |states|
    ensures AllLooked(states, steps, n, states[n])
  {
    if n > 0 {
      RunLooked(states, steps, n - 1);
      var free := RunInv(states, steps, false, n - 1);
      assert states[n - 1 + 1] == Next(states[n - 1], steps[n - 1]);
      NextLooked(states, steps, n - 1, free);
    }
  }

  /** The same for one reply: the step at which its query was looked up. */
  lemma EntrySaysFound(states: seq<State>, steps: seq<Step>, n: nat, k: nat)
    requires Run(states, steps) && n < |states| && k < |states[n].accepted|
    ensures var s, a := states[n], states[n].accepted[k];
      && a.id < |s.jobs| && s.jobs[a.id].Ask?
      && exists m :: 0 <= m < n && LookedAt(states, steps, m, a.id, s.jobs[a.id].filter, SearchEntry(s.jobs[a.id].msgid) in a.packet)
  {
    RunLooked(states, steps, n);
    assert ReplyLooked(states, steps, n, states[n], states[n].accepted[k]);
  }

  lemma NextLooked(states: seq<State>, steps: seq<Step>, n: nat, free: Slots)
    requires n < |steps| && n < |states| && Inv(states[n], free, false) && Enabled(states[n], steps[n])
    requires AllLooked(states, steps, n, states[n])
    ensures AllLooked(states, steps, n + 1, Next(states[n], steps[n]))
  {
    var s := states[n];
    var s' := Next(s, steps[n]);
    hide Looked, LookedAt, Found, Next, Enabled, Inv;
    StepQueues(s, free, steps[n]);
    forall l, k | 0 <= l < |s'.ldaps| && 0 <= k < |s'.ldaps[l]|
      ensures AnswerLooked(states, steps, n + 1, s'.ldaps[l][k])
    {
      var t := s'.ldaps[l][k];
      if t.job.Ask? {
        if t in s.ldaps[l] {
          var k' :| 0 <= k' < |s.ldaps[l]| && s.ldaps[l][k'] == t;
          assert AnswerLooked(states, steps, n, s.ldaps[l][k']);
          LookedStill(states, steps, n, t.id, t.job.filter, t.code == 0);
        } else {
          NewLooked(states, steps, n, t);
        }
      }
    }
    forall k | 0 <= k < |s'.accepted|
      ensures ReplyLooked(states, steps, n + 1, s', s'.accepted[k])
    {
      var a := s'.accepted[k];
      if k < |s.accepted| {
        assert a == s'.accepted[..|s.accepted|][k] == s.accepted[k];
        assert ReplyLooked(states, steps, n, s, s.accepted[k]);
        LookedStill(states, steps, n, a.id, s.jobs[a.id].filter, SearchEntry(s.jobs[a.id].msgid) in a.packet);
      } else {
        var t := s.ldaps[steps[n].l][0];
        assert AnswerLooked(states, steps, n, s.ldaps[steps[n].l][0]);
        LookedStill(states, steps, n, t.id, t.job.filter, t.code == 0);
      }
    }
  }

  /** What a step does to the threads' queues, the queries and the replies. */
  lemma StepQueues(s: State, free: Slots, step: Step)
    requires Inv(s, free, false) && Enabled(s, step)
    ensures var s' := Next(s, step);
      && s.jobs <= s'.jobs && |s'.ldaps| == |s.ldaps|
      && (forall l, k :: 0 <= l < |s'.ldaps| && 0 <= k < |s'.ldaps[l]| && s'.ldaps[l][k].job.Ask? ==>
            s'.ldaps[l][k] in s.ldaps[l] || (step.Work? && NewAnswer(s, step, s'.ldaps[l][k])))
      && (s'.accepted == s.accepted || (step.Notify? && step.l < |s.ldaps| && s.ldaps[step.l] != []))
      && (s'.accepted != s.accepted ==>
            var t := s.ldaps[step.l][0];
            && t.job.Ask? && t.id < |s.jobs| && t.job == s.jobs[t.id]
            && |s'.accepted| == |s.accepted| + 1 && s'.accepted[..|s.accepted|] == s.accepted
            && s'.accepted[|s.accepted|].id == t.id
            && (SearchEntry(t.job.msgid) in s'.accepted[|s.accepted|].packet <==> t.code == 0))
  {
    hide IoRegister, HandleEvent, TaskProcess, WorkerStep, NewAnswer, Inv;
    match step
    case Connect(fd, l) => ConnectQueues(s, fd, l);
    case Fire(i, ev) => EventQueues(s, i, ev);
    case Notify(l, written) => NotifyQueues(s, free, l, written);
    case Work(_, _, _) => WorkQueues(s, step);
  }

  /** The task that a worker's step adds. */
  ghost predicate NewAnswer(s: State, step: Step, t: Task)
    requires step.Work? && Enabled(s, step)
  {
    && s.mysqls[step.m][0].id == t.id && s.mysqls[step.m][0].job == t.job
    && (t.code == 0 <==> Found(t.job.filter, step.user, step.list))
  }

  lemma NewLooked(states: seq<State>, steps: seq<Step>, n: nat, t: Task)
    requires n < |steps| && n < |states| && steps[n].Work? && Enabled(states[n], steps[n]) && t.job.Ask?
    requires NewAnswer(states[n], steps[n], t)
    ensures Looked(states, steps, n + 1, t.id, t.job.filter, t.code == 0)
  {
    assert LookedAt(states, steps, n, t.id, t.job.filter, t.code == 0);
  }

  lemma CodeFound(filter: Filter, user: int, list: int)
    ensures LookupCode(filter, user, list) == 0 <==> Found(filter, user, list)
  {
  }

  /** The queries in the queues of threads stay, but for those that are taken. */
  ghost predicate NoNewAnswers(s: State, s': State) {
    && |s'.ldaps| == |s.ldaps|
    && forall l, k :: 0 <= l < |s'.ldaps| && 0 <= k < |s'.ldaps[l]| && s'.ldaps[l][k].job.Ask? ==>
         s'.ldaps[l][k] in s.ldaps[l]
  }

  /** What a worker's step does to the queues. */
  lemma WorkQueues(s: State, step: Step)
    requires step.Work? && Enabled(s, step)
    ensures var s' := Next(s, step);
      && s'.jobs == s.jobs && s'.accepted == s.accepted && |s'.ldaps| == |s.ldaps|
      && forall l, k :: 0 <= l < |s'.ldaps| && 0 <= k < |s'.ldaps[l]| && s'.ldaps[l][k].job.Ask? ==>
           s'.ldaps[l][k] in s.ldaps[l] || NewAnswer(s, step, s'.ldaps[l][k])
  {
    hide Found, LookupCode;
    CodeFound(s.mysqls[step.m][0].job.filter, step.user, step.list);
  }

  lemma ConnectQueues(s: State, fd: int, l: nat)
    requires l < |s.ldaps| && (s.freeHead == NONE || InPool(s, s.freeHead))
    ensures var s' := IoRegister(s, fd, l); s.jobs <= s'.jobs && s'.accepted == s.accepted && NoNewAnswers(s, s')
  {
  }

  /** The answer that a thread takes, and the reply it may lead to. */
  lemma NotifyQueues(s: State, free: Slots, l: nat, written: nat)
    requires Inv(s, free, false) && Enabled(s, Notify(l, written))
    ensures var s', t := TaskProcess(s, l, written), s.ldaps[l][0];
      && s'.jobs == s.jobs && NoNewAnswers(s, s') && t.id < |s.jobs| && t.job == s.jobs[t.id]
      && (s'.accepted == s.accepted ||
          (t.job.Ask? && |s'.accepted| == |s.accepted| + 1 && s'.accepted[..|s.accepted|] == s.accepted
           && s'.accepted[|s.accepted|].id == t.id
           && (SearchEntry(t.job.msgid) in s'.accepted[|s.accepted|].packet <==> t.code == 0)))
  {
    TaskTaken(s, free, l);
    hide Core, History;
  }

  lemma EventQueues(s: State, i: int, ev: IoEvent)
    requires InPool(s, i)
    ensures var s' := HandleEvent(s, i, ev);
      s'.ldaps == s.ldaps && s'.accepted == s.accepted && s.jobs <= s'.jobs
  {
    if ev.read {
      var c := s.conns[i].(req := s.conns[i].req + ev.arrived);
      RequestQueues(SetConn(s, i, if ev.readFails then IoUnregister(c) else c), i);
    }
  }

  lemma {:induction false} RequestQueues(s: State, i: int)
    requires InPool(s, i)
    ensures var s' := ProcessRequests(s, i).0;
      s'.ldaps == s.ldaps && s'.accepted == s.accepted && s.jobs <= s'.jobs
    decreases |s.conns[i].req|
  {
    var c := s.conns[i];
    if c.req != [] && !c.req[0].NoMsgid? {
      RequestQueues(DoRequest(SetConn(s, i, c.(req := c.req[1..])), i, c.req[0]), i);
    }
  }
}
