/** The program behind the state machine: global connection records, lists and
    queues that are changed in place. Each method is one function of the model. */
module LpProxy {
  import opened LpProtocol
  import opened LpInvariant
  import opened LpSteps
  import opened LpRuns

  class Proxy {
    // lp_connection.c
    var conns: seq<Conn>
    var freeHead: int
    var freeN: int
    var usedN: int
    // the queues of lp_mysql.c and lp_ldap.c
    var mysqls: seq<seq<Task>>
    var ldaps: seq<seq<Task>>
    // the history
    ghost var jobs: seq<Job>
    ghost var places: seq<Place>
    ghost var accepted: seq<Accept>
    ghost var freed: seq<(int, nat)>
    // names for incarnations and for the next task, which the program does not have
    var lives: seq<nat>
    var taskN: nat

    ghost function View(): State
      reads this
    {
      State(conns, freeHead, freeN, usedN, mysqls, ldaps, lives, jobs, places, accepted, freed)
    }

    /** lp_connections_init: links the connections from the last one to the
        first. */
    constructor (max: nat, workers: nat, threads: nat)
      requires 0 < max
      ensures View() == Initial(max, workers, threads) && taskN == 0
    {
      var cs: seq<Conn> := seq(max, _ => Blank(0, 0, NONE));
      var next, i := NONE, max;
      while i > 0
        invariant |cs| == max && 0 <= i <= max && next == (if i < max then i else NONE)
        invariant forall k :: i <= k < max ==> cs[k] == Fresh(k, max)
      {
        i := i - 1;
        cs := cs[i := Blank(i, -1, next)];
        next := i;
      }
      conns, freeHead, freeN, usedN := cs, next, max, 0;
      mysqls, ldaps := seq(workers, _ => []), seq(threads, _ => []);
      lives, jobs, places, accepted, freed := seq(max, _ => 0), [], [], [], [];
      taskN := 0;
      new;
      assert conns == Initial(max, workers, threads).conns;
    }

    // ----- lp_connection.c

    /** lp_get_connection */
    method GetConnection(sockfd: int) returns (i: int)
      requires freeHead == NONE || InPool(View(), freeHead)
      modifies this
      ensures (View(), i) == LpProtocol.GetConnection(old(View()), sockfd)
      ensures taskN == old(taskN)
    {
      i := freeHead;
      if i == NONE {
        return;
      }
      freeHead := conns[i].data;
      freeN := freeN - 1;
      usedN := usedN + 1;
      conns := conns[i := conns[i].(fd := sockfd)];
      lives := lives[i := lives[i] + 1];
    }

    /** lp_free_connection: the lists are emptied, and all but the index and the
        events is zeroed. */
    method FreeConnection(i: nat)
      requires InPool(View(), i)
      modifies this
      ensures View() == LpProtocol.FreeConnection(old(View()), i) && taskN == old(taskN)
    {
      DiscardLists(i);
      var idx := conns[i].idx;
      freed := freed + [(i, lives[i])];
      conns := conns[i := Blank(idx, 0, freeHead)];
      freeHead := i;
      freeN := freeN + 1;
      usedN := usedN - 1;
    }

    /** lp_connection_discard_cb on both lists, and lp_clean_task_ticks. */
    method DiscardLists(i: nat)
      requires InPool(View(), i)
      modifies this`conns
      ensures conns == old(conns[i := conns[i].(req := [], rpl := [], ticks := [])])
    {
      DiscardRequests(i);
      DiscardReplies(i);
      CleanTaskTicks(i);
    }

    method DiscardRequests(i: nat)
      requires i < |conns|
      modifies this`conns
      ensures conns == old(conns[i := conns[i].(req := [])])
    {
      while conns[i].req != []
        invariant |conns| == |old(conns)| && conns == old(conns)[i := old(conns[i]).(req := conns[i].req)]
        decreases |conns[i].req|
      {
        conns := conns[i := conns[i].(req := conns[i].req[1..])];
      }
    }

    method DiscardReplies(i: nat)
      requires i < |conns|
      modifies this`conns
      ensures conns == old(conns[i := conns[i].(rpl := [])])
    {
      while conns[i].rpl != []
        invariant |conns| == |old(conns)| && conns == old(conns)[i := old(conns[i]).(rpl := conns[i].rpl)]
        decreases |conns[i].rpl|
      {
        conns := conns[i := conns[i].(rpl := conns[i].rpl[1..])];
      }
    }

    method CleanTaskTicks(i: nat)
      requires i < |conns|
      modifies this`conns
      ensures conns == old(conns[i := conns[i].(ticks := [])])
    {
      while conns[i].ticks != []
        invariant |conns| == |old(conns)| && conns == old(conns)[i := old(conns[i]).(ticks := conns[i].ticks)]
        decreases |conns[i].ticks|
      {
        conns := conns[i := conns[i].(ticks := conns[i].ticks[1..])];
      }
    }

    // ----- lp_task.c

    /** lp_conn_check_task_tick: scans the ticks and removes the one found. */
    method CheckTaskTick(i: nat, tick: int) returns (ok: bool)
      requires InPool(View(), i)
      modifies this`conns
      ensures ok == (tick in old(conns[i].ticks))
      ensures conns == if ok then old(conns[i := conns[i].(ticks := Remove(conns[i].ticks, tick))]) else old(conns)
    {
      var ticks, k := conns[i].ticks, 0;
      while k < |ticks|
        invariant k <= |ticks| && tick !in ticks[..k]
        invariant Remove(ticks, tick) == ticks[..k] + Remove(ticks[k..], tick)
      {
        if ticks[k] == tick {
          conns := conns[i := conns[i].(ticks := ticks[..k] + ticks[k + 1..])];
          assert ticks[k..][1..] == ticks[k + 1..];
          return true;
        }
        assert ticks[k..][1..] == ticks[k + 1..] && ticks[..k + 1] == ticks[..k] + [ticks[k]];
        k := k + 1;
      }
      ok := false;
    }

    // ----- lp_ldap.c

    /** The number of the next task is that of the next entry of the history. */
    ghost predicate Numbered()
      reads this
    {
      taskN == |jobs| == |places|
    }

    /** lp_ldap_io_register, with the thread that lp_get_ldap returns. */
    method IoRegister(sockfd: int, ldap: nat)
      requires (freeHead == NONE || InPool(View(), freeHead)) && ldap < |ldaps| && Numbered()
      modifies this
      ensures View() == LpProtocol.IoRegister(old(View()), sockfd, ldap) && Numbered()
      ensures |conns| == |old(conns)| && |ldaps| == |old(ldaps)|
      ensures old(freeHead) != NONE ==>
        && |lives| == |conns| && conns[old(freeHead)].active && conns[old(freeHead)].fd == sockfd && conns[old(freeHead)].ldap == ldap
        && ldaps[ldap] == old(ldaps)[ldap] + [Task(|jobs| - 1, Reg(old(freeHead), lives[old(freeHead)]), ldap, 0)]
    {
      var cnt, c := 0, NONE;
      while cnt < 3 && c == NONE
        invariant c == NONE ==> View() == old(View())
        invariant c != NONE ==> (View(), c) == LpProtocol.GetConnection(old(View()), sockfd)
        invariant taskN == old(taskN) && (cnt == 0 ==> c == NONE)
        invariant cnt > 0 && c == NONE ==> old(freeHead) == NONE
        decreases 3 - cnt
      {
        c := GetConnection(sockfd);
        cnt := cnt + 1;
      }
      if c == NONE {
        return;
      }
      conns := conns[c := conns[c].(ldap := ldap, discard := true)];
      conns := conns[c := conns[c].(active := true)];
      LdapPushTask(ldap, Task(taskN, Reg(c, lives[c]), ldap, 0));
    }

    /** lp_ldap_push_task for a new task */
    method LdapPushTask(ldap: nat, task: Task)
      requires ldap < |ldaps| && Numbered() && task.id == taskN
      modifies this`ldaps, this`jobs, this`places, this`taskN
      ensures ldaps == old(ldaps[ldap := ldaps[ldap] + [task]]) && Numbered()
      ensures jobs == old(jobs) + [task.job] && places == old(places) + [AtLdap(ldap)]
    {
      ldaps := ldaps[ldap := ldaps[ldap] + [task]];
      jobs, places, taskN := jobs + [task.job], places + [AtLdap(ldap)], taskN + 1;
    }

    /** __io_unregister */
    method IoUnregister(i: nat)
      requires InPool(View(), i)
      modifies this`conns
      ensures conns == old(conns[i := LpProtocol.IoUnregister(conns[i])])
      ensures |conns| == |old(conns)| && conns[i].closing && conns[i].closed && (!old(conns[i].closed) ==> !conns[i].rev)
    {
      conns := conns[i := conns[i].(closing := true)];
      if conns[i].closed {
        return;
      }
      conns := conns[i := conns[i].(rev := false)];
      if conns[i].wevActive {
        conns := conns[i := conns[i].(wev := false)];
      }
      conns := conns[i := conns[i].(closed := true)];
    }

    // ----- lp_mysql.c and lp_ldap_logic.c

    /** lp_mysql_push_task: the tick is registered before the task is pushed. */
    method MysqlPushTask(i: nat, mysql: nat, task: Task, tick: int)
      requires InPool(View(), i) && mysql < |mysqls| && Numbered() && task.id == taskN
      modifies this`conns, this`mysqls, this`jobs, this`places, this`taskN
      ensures conns == old(conns[i := conns[i].(ticks := conns[i].ticks + [tick])]) && Numbered()
      ensures mysqls == old(mysqls[mysql := mysqls[mysql] + [task]])
      ensures jobs == old(jobs) + [task.job] && places == old(places) + [AtMysql(mysql)]
    {
      conns := conns[i := conns[i].(ticks := conns[i].ticks + [tick])];
      mysqls := mysqls[mysql := mysqls[mysql] + [task]];
      jobs, places, taskN := jobs + [task.job], places + [AtMysql(mysql)], taskN + 1;
    }

    /** lp_do_search, with the worker that lp_get_mysql returns and the tick that
        the clock gives. */
    method DoSearch(i: nat, r: Request)
      requires InPool(View(), i) && Numbered() && r.Search?
      modifies this`conns, this`mysqls, this`jobs, this`places, this`taskN
      ensures View() == PushQuery(old(View()), i, r) && Numbered()
      ensures jobs == old(jobs) + [Ask(i, lives[i], r.msgid, r.filter, r.tick)]
      ensures |conns| == |old(conns)| && conns[i].ticks == old(conns[i].ticks) + [r.tick]
      ensures |mysqls| == |old(mysqls)| && var m := r.turn % |mysqls|;
        mysqls[m] == old(mysqls)[m] + [Task(|jobs| - 1, jobs[|jobs| - 1], m, 0)]
    {
      var mysql := r.turn % |mysqls|;
      var job := Ask(i, lives[i], r.msgid, r.filter, r.tick);
      MysqlPushTask(i, mysql, Task(taskN, job, mysql, 0), r.tick);
    }

    /** The operation on one request: the table opfunc. */
    method DoRequest(i: nat, r: Request)
      requires InPool(View(), i) && Numbered()
      modifies this`conns, this`mysqls, this`jobs, this`places, this`taskN
      ensures View() == LpProtocol.DoRequest(old(View()), i, r) && Numbered()
    {
      match r {
        case Bind(msgid) =>
          conns := conns[i := conns[i].(rpl := conns[i].rpl + [[BindResponse(msgid)]])];
        case Unbind(_) =>
          IoUnregister(i);
        case Search(_, _, _, _) =>
          DoSearch(i, r);
        case _ =>
      }
    }

    /** __ldap_process_request */
    method ProcessRequests(i: nat) returns (ok: bool)
      requires InPool(View(), i) && Numbered()
      modifies this`conns, this`mysqls, this`jobs, this`places, this`taskN
      ensures (View(), ok) == LpProtocol.ProcessRequests(old(View()), i) && Numbered() && InPool(View(), i)
    {
      while conns[i].req != []
        invariant InPool(View(), i) && Numbered()
        invariant LpProtocol.ProcessRequests(View(), i) == LpProtocol.ProcessRequests(old(View()), i)
        decreases |conns[i].req|
      {
        var itr := conns[i].req[0];
        conns := conns[i := conns[i].(req := conns[i].req[1..])];
        if itr.NoMsgid? {
          return false;
        }
        DoRequest(i, itr);
      }
      ok := true;
    }

    /** __ldap_write: `written` replies go out before the socket is full or fails. */
    method WriteReplies(i: nat, written: nat)
      requires InPool(View(), i)
      modifies this`conns
      ensures |conns| == |old(conns)| && old(conns[i].sent + conns[i].rpl) == conns[i].sent + conns[i].rpl
      ensures |conns[i].rpl| == if written <= |old(conns[i].rpl)| then |old(conns[i].rpl)| - written else 0
      ensures conns == old(conns[i := LpProtocol.WriteReplies(conns[i], written)])
    {
      hide LpProtocol.WriteReplies;
      var n := 0;
      ghost var c := conns[i];
      WrittenNone(c);
      while conns[i].rpl != [] && n < written
        invariant n <= written && n <= |c.rpl| && conns == old(conns)[i := LpProtocol.WriteReplies(c, n)]
        decreases written - n
      {
        WrittenMore(c, n);
        conns := conns[i := conns[i].(rpl := conns[i].rpl[1..], sent := conns[i].sent + [conns[i].rpl[0]])];
        n := n + 1;
      }
      WrittenAll(c, n, written);
    }

    /** The reading part of lp_ldap_io_event_handler. */
    method HandleRead(i: nat, ev: IoEvent) returns (on: bool)
      requires InPool(View(), i) && Numbered()
      modifies this`conns, this`mysqls, this`jobs, this`places, this`taskN
      ensures (View(), on) == ReadPart(old(View()), i, ev) && Numbered() && InPool(View(), i)
    {
      on := true;
      if ev.read {
        conns := conns[i := conns[i].(req := conns[i].req + ev.arrived)];
        if ev.readFails {
          IoUnregister(i);
        }
        ghost var c := old(conns[i]).(req := old(conns[i]).req + ev.arrived);
        assert conns == old(conns)[i := if ev.readFails then LpProtocol.IoUnregister(c) else c];
        on := ProcessRequests(i);
      }
    }

    /** lp_ldap_io_event_handler */
    method HandleEvent(i: nat, ev: IoEvent)
      requires InPool(View(), i) && Numbered()
      modifies this
      ensures View() == LpProtocol.HandleEvent(old(View()), i, ev) && Numbered()
    {
      if conns[i].closing {
        return;
      }
      if ev.timeout {
        IoUnregister(i);
      } else {
        if !conns[i].active {
          return;
        }
        var on := HandleRead(i, ev);
        if !on {
          return;
        }
        if ev.write {
          WriteReplies(i, ev.written);
          if ev.writeFails {
            IoUnregister(i);
          }
        }
      }
      if conns[i].closed {
        FreeConnection(i);
      }
    }

    /** lp_search_reply */
    method SearchReply(i: nat, task: Task) returns (ghost packet: seq<Msg>)
      requires InPool(View(), i) && task.job.Ask? && (task.code == 0 || task.code == -1)
      modifies this`conns
      ensures packet == if task.code == 0 then [SearchEntry(task.job.msgid), SearchDone(task.job.msgid)]
                        else [SearchDone(task.job.msgid)]
      ensures conns == old(conns[i := conns[i].(rpl := conns[i].rpl + [packet])])
    {
      var ber: seq<Msg> := [];
      if task.code == 0 {
        ber := ber + [SearchEntry(task.job.msgid)];
      }
      ber := ber + [SearchDone(task.job.msgid)];
      conns := conns[i := conns[i].(rpl := conns[i].rpl + [ber])];
      packet := ber;
    }

    /** __process_mysql_task */
    method ProcessMysqlTask(ldap: nat, task: Task, written: nat)
      requires task.job.Ask? && InPool(View(), task.job.slot) && (task.code == 0 || task.code == -1)
      modifies this`conns, this`accepted
      ensures View() == ProcessAnswer(old(View()), ldap, task, written)
    {
      var i := task.job.slot;
      if conns[i].ldap == ldap {
        var packet := SearchReply(i, task);
        accepted := accepted + [Accept(task.id, i, lives[i], packet)];
        WriteReplies(i, written);
      }
    }

    /** __task_process for the task that __pop_task takes from the queue. */
    method TaskProcess(ldap: nat, written: nat)
      requires ldap < |ldaps| && ldaps[ldap] != [] && ldaps[ldap][0].id < |places| && Numbered()
      requires InPool(View(), ldaps[ldap][0].job.slot) && (ldaps[ldap][0].code == 0 || ldaps[ldap][0].code == -1)
      modifies this
      ensures View() == LpProtocol.TaskProcess(old(View()), ldap, written) && Numbered()
      ensures |conns| == |old(conns)|
      ensures old(ldaps)[ldap][0].job.Reg? ==>
        var c := conns[old(ldaps)[ldap][0].job.slot];
        c.rev && c.wev && c.wevActive
    {
      var task := ldaps[ldap][0];
      ldaps := ldaps[ldap := ldaps[ldap][1..]];
      places := places[task.id := Gone];
      var i := task.job.slot;
      match task.job {
        case Reg(_, _) =>
          conns := conns[i := conns[i].(rev := true)];
          conns := conns[i := conns[i].(wev := true, wevActive := true)];
        case Ask(_, _, _, _, tick) =>
          var ok := CheckTaskTick(i, tick);
          if ok {
            ProcessMysqlTask(ldap, task, written);
          }
      }
    }

    /** One round of __mysql_routine. */
    method MysqlRoutine(mysql: nat, user: int, list: int)
      requires mysql < |mysqls| && mysqls[mysql] != [] && mysqls[mysql][0].id < |places| && Numbered()
      requires var t := mysqls[mysql][0];
        t.job.Ask? && InPool(View(), t.job.slot) && conns[t.job.slot].ldap < |ldaps|
      modifies this
      ensures View() == WorkerStep(old(View()), mysql, user, list) && Numbered()
      ensures var t, l := old(mysqls)[mysql][0], old(conns)[old(mysqls)[mysql][0].job.slot].ldap;
        t.receiver == mysql && 0 <= l ==>
          && |ldaps| == |old(ldaps)| && |ldaps[l]| == |old(ldaps)[l]| + 1
          && var a := ldaps[l][|ldaps[l]| - 1];
            && a.id == t.id && a.job == t.job && a.receiver == l
            && (a.code == 0 <==> Found(t.job.filter, user, list))
    {
      var task := mysqls[mysql][0];
      mysqls := mysqls[mysql := mysqls[mysql][1..]];
      places := places[task.id := Gone];
      if task.receiver != mysql {
        return;
      }
      var code := Lookup(task.job.filter, user, list);
      var l := conns[task.job.slot].ldap;
      if l >= 0 {
        ldaps := ldaps[l := ldaps[l] + [Task(task.id, task.job, l, code)]];
        places := places[task.id := AtLdap(l)];
      }
    }

    /** The lookup of __process_ldap_query, where user and list are what the two
        lookups return, 0 for found. Only a mail address is looked up. */
    method Lookup(filter: Filter, user: int, list: int) returns (code: int)
      ensures code == 0 || code == -1
      ensures filter.OtherFilter? ==> code == 0
      ensures filter.Equality? && SameText("mail", filter.attribute) ==> (code == 0 <==> user == 0 || list == 0)
      ensures filter.Equality? && !SameText("mail", filter.attribute) ==>
        (code == 0 <==> SameText("domain", filter.attribute))
    {
      var ret := 0;
      if filter.Equality? {
        if SameText("mail", filter.attribute) {
          ret := user;
          if ret != 0 {
            ret := list;
          }
        } else if SameText("domain", filter.attribute) {
          ret := 0;
        } else {
          ret := -1;
        }
      }
      code := if ret == 0 then 0 else -1;
    }

    /** Every step of the state machine is one call. */
    method Do(step: Step, ghost free: Slots)
      requires Numbered() && Inv(View(), free, false) && Enabled(View(), step)
      modifies this
      ensures View() == Next(old(View()), step) && Numbered()
    {
      match step {
        case Connect(fd, l) =>
          IoRegister(fd, l);
        case Fire(i, ev) =>
          HandleEvent(i, ev);
        case Notify(l, written) =>
          TaskInv(View(), free, false, l, written);
          TaskProcess(l, written);
        case Work(m, user, list) =>
          MysqlRoutine(m, user, list);
      }
    }

    /** Any steps that can happen, from the start: the program goes through a run of
        the state machine. */
    method Run(steps: seq<Step>) returns (ghost states: seq<State>)
      requires Numbered() && Started(View()) && Possible(View(), steps)
      modifies this
      ensures LpRuns.Run(states, steps) && states[0] == old(View()) && states[|steps|] == View() && Numbered()
    {
      hide Started, Enabled, Next, Inv;
      states := [View()];
      var n := 0;
      assert steps[..0] == [] && steps[0..] == steps;
      while n < |steps|
        invariant n <= |steps| && Numbered() && |states| == n + 1 && states[0] == old(View()) && states[n] == View()
        invariant LpRuns.Run(states, steps[..n]) && Possible(View(), steps[n..])
      {
        ghost var free := RunInv(states, steps[..n], false, n);
        ghost var states', steps' := RunMore(states, steps[..n], steps[n]);
        assert steps[..n] + [steps[n]] == steps[..n + 1] && steps[n..][1..] == steps[n + 1..];
        Do(steps[n], free);
        states, n := states', n + 1;
      }
      assert steps[..n] == steps;
    }
  }

  lemma WrittenNone(c: Conn)
    ensures LpProtocol.WriteReplies(c, 0) == c
  {
    assert c.sent + c.rpl[..0] == c.sent && c.rpl[0..] == c.rpl;
  }

  /** One more reply leaves from the front. */
  lemma WrittenMore(c: Conn, n: nat)
    requires n <= |c.rpl|
    ensures LpProtocol.WriteReplies(c, n).rpl == c.rpl[n..]
    ensures n < |c.rpl| ==>
      var d := LpProtocol.WriteReplies(c, n);
      LpProtocol.WriteReplies(c, n + 1) == d.(rpl := d.rpl[1..], sent := d.sent + [d.rpl[0]])
  {
    if n < |c.rpl| {
      assert c.rpl[n..][1..] == c.rpl[n + 1..] && c.rpl[n..][0] == c.rpl[n];
      assert (c.sent + c.rpl[..n]) + [c.rpl[n]] == c.sent + c.rpl[..n + 1];
    }
  }

  lemma WrittenAll(c: Conn, n: nat, written: nat)
    requires n <= |c.rpl| && n <= written && (n == written || LpProtocol.WriteReplies(c, n).rpl == [])
    ensures LpProtocol.WriteReplies(c, n) == LpProtocol.WriteReplies(c, written)
    ensures var d := LpProtocol.WriteReplies(c, written);
      && d.sent + d.rpl == c.sent + c.rpl
      && |d.rpl| == if written <= |c.rpl| then |c.rpl| - written else 0
  {
    assert (c.sent + c.rpl[..n]) + c.rpl[n..] == c.sent + c.rpl;
  }

  /** The program from its start: the pool adds up, closed connections have no events,
      no query is answered twice, and replies went where they were asked for. */
  method Serve(max: nat, workers: nat, threads: nat, steps: seq<Step>) returns (p: Proxy)
    requires 0 < max && 0 < workers && Possible(Initial(max, workers, threads), steps)
    ensures |p.conns| == max && p.freeN + p.usedN == max
    ensures forall i :: 0 <= i < max ==>
      p.conns[i].idx == i && (p.conns[i].closing <==> p.conns[i].closed)
      && (p.conns[i].closed ==> !p.conns[i].rev && !p.conns[i].wev)
    ensures forall j, k :: 0 <= j < k < |p.accepted| ==> p.accepted[j].id != p.accepted[k].id
    ensures forall k :: 0 <= k < |p.accepted| ==>
      var a := p.accepted[k];
      a.id < |p.jobs| && p.jobs[a.id].Ask? && p.jobs[a.id].slot == a.slot && Answers(a.packet, p.jobs[a.id].msgid)
  {
    hide Possible, Enabled, Next, LpRuns.Run;
    p := new Proxy(max, workers, threads);
    ghost var states := p.Run(steps);
    RunLength(states, steps);
    ghost var free := PoolSafety(states, steps, |steps|);
    ReplySafety(states, steps, |steps|);
  }

  lemma RunLength(states: seq<State>, steps: seq<Step>)
    requires LpRuns.Run(states, steps)
    ensures |states| == |steps| + 1
  {
  }
}
