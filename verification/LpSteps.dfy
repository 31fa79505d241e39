/** What every step of the proxy keeps: the pool of connections, the queues, and
    the history of replies. */
module LpSteps {
  import opened LpProtocol
  import opened LpInvariant
  import opened LpHistory

  /** A new task at the end of a queue. */
  lemma QueuePush(q: seq<Task>, place: Place, receiver: nat, jobs: seq<Job>, places: seq<Place>, job: Job, code: int)
    requires QueueOk(q, place, receiver, jobs, places) && (place.AtMysql? ==> job.Ask?) && (code == 0 || code == -1)
    ensures QueueOk(q + [Task(|jobs|, job, receiver, code)], place, receiver, jobs + [job], places + [place])
  {
  }

  /** Other queues when a task is new. */
  lemma QueueNew(q: seq<Task>, place: Place, receiver: nat, jobs: seq<Job>, places: seq<Place>, job: Job, at: Place)
    requires QueueOk(q, place, receiver, jobs, places)
    ensures QueueOk(q, place, receiver, jobs + [job], places + [at])
  {
  }

  /** The queue that a task leaves. */
  lemma QueuePop(q: seq<Task>, place: Place, receiver: nat, jobs: seq<Job>, places: seq<Place>, at: Place)
    requires QueueOk(q, place, receiver, jobs, places) && q != []
    ensures q[0].id < |places| && QueueOk(q[1..], place, receiver, jobs, places[q[0].id := at])
  {
  }

  /** Other queues when a task moves. */
  lemma QueueOther(q: seq<Task>, place: Place, receiver: nat, jobs: seq<Job>, places: seq<Place>, id: nat, at: Place)
    requires QueueOk(q, place, receiver, jobs, places) && id < |places| && places[id] != place
    ensures QueueOk(q, place, receiver, jobs, places[id := at])
  {
  }

  /** The queue that a task comes to. */
  lemma QueueArrive(q: seq<Task>, place: Place, receiver: nat, jobs: seq<Job>, places: seq<Place>, t: Task)
    requires QueueOk(q, place, receiver, jobs, places) && t.id < |places| && places[t.id] != place
    requires t.job == jobs[t.id] && t.receiver == receiver && (place.AtMysql? ==> t.job.Ask?)
    requires t.code == 0 || t.code == -1
    ensures QueueOk(q + [t], place, receiver, jobs, places[t.id := place])
  {
  }

  // ----- steps

  /** No registration of slot i is on its way. */
  ghost predicate NoReg(s: State, i: int) {
    |s.jobs| == |s.places| &&
    forall id :: 0 <= id < |s.jobs| && s.jobs[id].Reg? && s.jobs[id].slot == i ==> s.places[id].Gone?
  }

  /** A used connection with events, or one that is closing, was registered. */
  lemma Registered(s: State, free: Slots, i: int)
    requires Jobs(s, free) && InPool(s, i)
    requires s.conns[i].rev || s.conns[i].wev || s.conns[i].closing || i in SlotSet(free)
    ensures NoReg(s, i)
  {
    forall id | 0 <= id < |s.jobs| && s.jobs[id].Reg? && s.jobs[id].slot == i
      ensures s.places[id].Gone?
    {
      assert JobOk(s, free, id);
    }
  }

  /** A change of one used connection. */
  lemma ConnSet(s: State, free: Slots, distinct: bool, i: int, c: Conn)
    requires Inv(s, free, distinct) && InPool(s, i) && i !in SlotSet(free)
    requires ConnOk(SetConn(s, i, c), i, false) && c.ldap == s.conns[i].ldap && c.ticks == s.conns[i].ticks
    requires c.rev || c.wev || c.closing ==> NoReg(s, i)
    ensures Inv(SetConn(s, i, c), free, distinct)
  {
    CoreSet(s, free, i, c);
    HistorySame(s, SetConn(s, i, c), free, distinct);
  }

  lemma CoreSet(s: State, free: Slots, i: int, c: Conn)
    requires Core(s, free) && InPool(s, i) && i !in SlotSet(free)
    requires ConnOk(SetConn(s, i, c), i, false) && c.ldap == s.conns[i].ldap
    requires c.rev || c.wev || c.closing ==> NoReg(s, i)
    ensures Core(SetConn(s, i, c), free)
  {
    var s' := SetConn(s, i, c);
    ChainFrame(s.conns, s'.conns, s.freeHead, free);
    forall k | 0 <= k < |s'.conns|
      ensures ConnOk(s', k, k in SlotSet(free))
    {
      assert ConnOk(s, k, k in SlotSet(free));
    }
    forall id | 0 <= id < |s'.jobs|
      ensures JobOk(s', free, id)
    {
      assert JobOk(s, free, id);
    }
  }

  /** The state with a new task. */
  function Pushed(s: State, job: Job, place: Place): State
    requires match place case AtMysql(m) => m < |s.mysqls| case AtLdap(l) => l < |s.ldaps| case Gone => false
  {
    var id, s1 := |s.jobs|, s.(jobs := s.jobs + [job], places := s.places + [place]);
    match place
    case AtMysql(m) => s1.(mysqls := s.mysqls[m := s.mysqls[m] + [Task(id, job, m, 0)]])
    case AtLdap(l) => s1.(ldaps := s.ldaps[l := s.ldaps[l] + [Task(id, job, l, 0)]])
  }

  lemma QueuesPushed(s: State, job: Job, place: Place)
    requires Queues(s) && |s.jobs| == |s.places| && (place.AtMysql? ==> job.Ask?)
    requires match place case AtMysql(m) => m < |s.mysqls| case AtLdap(l) => l < |s.ldaps| case Gone => false
    ensures Queues(Pushed(s, job, place))
  {
    var s' := Pushed(s, job, place);
    forall m | 0 <= m < |s'.mysqls|
      ensures QueueOk(s'.mysqls[m], AtMysql(m), m, s'.jobs, s'.places)
    {
      QueueNew(s.mysqls[m], AtMysql(m), m, s.jobs, s.places, job, place);
      if place == AtMysql(m) {
        QueuePush(s.mysqls[m], place, m, s.jobs, s.places, job, 0);
      }
    }
    forall l | 0 <= l < |s'.ldaps|
      ensures QueueOk(s'.ldaps[l], AtLdap(l), l, s'.jobs, s'.places)
    {
      QueueNew(s.ldaps[l], AtLdap(l), l, s.jobs, s.places, job, place);
      if place == AtLdap(l) {
        QueuePush(s.ldaps[l], place, l, s.jobs, s.places, job, 0);
      }
    }
  }

  /** A query of a used connection, up to the history. */
  lemma QueryCore(s: State, free: Slots, i: int, r: Request)
    requires Core(s, free) && InPool(s, i) && i !in SlotSet(free) && r.Search?
    ensures Core(PushQuery(s, i, r), free)
  {
    var c := s.conns[i].(ticks := s.conns[i].ticks + [r.tick]);
    var job, m := Ask(i, s.lives[i], r.msgid, r.filter, r.tick), r.turn % |s.mysqls|;
    ListsSet(s, free, i, c);
    var s1 := SetConn(s, i, c);
    QueuesPushed(s1, job, AtMysql(m));
    var s' := Pushed(s1, job, AtMysql(m));
    assert s' == PushQuery(s, i, r);
    Unaffected(s1, s', free);
    assert ConnOk(s, i, i in SlotSet(free));
    forall id | 0 <= id < |s'.jobs|
      ensures JobOk(s', free, id)
    {
      if id < |s1.jobs| {
        assert JobOk(s1, free, id);
      }
    }
  }

  lemma QueryPushed(s: State, free: Slots, distinct: bool, i: int, r: Request)
    requires Inv(s, free, distinct) && InPool(s, i) && i !in SlotSet(free) && r.Search?
    ensures Inv(PushQuery(s, i, r), free, distinct)
  {
    QueryCore(s, free, i, r);
    HistoryQuery(s, PushQuery(s, i, r), free, distinct, i,
                 Ask(i, s.lives[i], r.msgid, r.filter, r.tick), AtMysql(r.turn % |s.mysqls|));
  }

  /** What does not depend on the queues. */
  lemma Unaffected(s: State, s': State, free: Slots)
    requires Pool(s, free) && Conns(s, free)
    requires s'.conns == s.conns && s'.lives == s.lives && s'.freeHead == s.freeHead
    requires s'.freeN == s.freeN && s'.usedN == s.usedN && |s'.mysqls| == |s.mysqls| && |s'.ldaps| == |s.ldaps|
    ensures Pool(s', free) && Conns(s', free)
  {
    forall k | 0 <= k < |s'.conns|
      ensures ConnOk(s', k, k in SlotSet(free))
    {
      assert ConnOk(s, k, k in SlotSet(free));
    }
  }

  /** The first free slot, handed out. */
  lemma SlotTaken(s: State, free: Slots, fd: int, l: nat)
    requires Core(s, free) && s.freeHead != NONE && l < |s.ldaps|
    ensures free.SCons? && InPool(s, s.freeHead)
    ensures var (s1, i) := GetConnection(s, fd);
      && i == free.i && InPool(s1, i) && i !in SlotSet(free.tail)
      // the assertions of lp_ldap_io_register
      && !s1.conns[i].active && !s1.conns[i].closing && !s1.conns[i].closed
      && var s2 := SetConn(s1, i, s1.conns[i].(ldap := l, discard := true, active := true));
        Pool(s2, free.tail) && Conns(s2, free.tail)
  {
    var (s1, i) := GetConnection(s, fd);
    assert ConnOk(s, i, i in SlotSet(free));
    var s2 := SetConn(s1, i, s1.conns[i].(ldap := l, discard := true, active := true));
    ChainFrame(s.conns, s2.conns, s.conns[i].data, free.tail);
    forall k | 0 <= k < |s2.conns|
      ensures ConnOk(s2, k, k in SlotSet(free.tail))
    {
      assert ConnOk(s, k, k in SlotSet(free));
    }
  }

  lemma IoRegisterInv(s: State, free: Slots, distinct: bool, fd: int, l: nat) returns (free': Slots)
    requires Inv(s, free, distinct) && l < |s.ldaps|
    ensures s.freeHead == NONE || InPool(s, s.freeHead)
    ensures Inv(IoRegister(s, fd, l), free', distinct)
    ensures s.freeHead != NONE ==> free == SCons(s.freeHead, free') && s.freeHead !in SlotSet(free')
  {
    free' := free;
    if s.freeHead != NONE {
      SlotTaken(s, free, fd, l);
      free' := free.tail;
      var (s1, i) := GetConnection(s, fd);
      var s2 := SetConn(s1, i, s1.conns[i].(ldap := l, discard := true, active := true));
      var job := Reg(i, s2.lives[i]);
      QueuesPushed(s2, job, AtLdap(l));
      var s' := Pushed(s2, job, AtLdap(l));
      assert s' == IoRegister(s, fd, l);
      RegisterCore(s, free, s2, s', free', i, job);
      assert ConnOk(s, i, i in SlotSet(free));
      forall id | 0 <= id < |s.jobs| && s.jobs[id].slot == i
        ensures s.jobs[id].life <= s.lives[i]
      {
        assert JobOk(s, free, id);
      }
      HistoryTake(s, s', free, free', distinct, i, AtLdap(l));
    }
  }

  /** A registration was added for the first free slot. */
  lemma RegisterCore(s: State, free: Slots, s2: State, s': State, free': Slots, i: nat, job: Job)
    requires Core(s, free) && free == SCons(i, free') && i !in SlotSet(free') && i < |s.conns|
    requires Pool(s2, free') && Conns(s2, free') && Queues(s') && job == Reg(i, s.lives[i] + 1)
    requires s2.lives == s.lives[i := s.lives[i] + 1]
    requires |s2.conns| == |s.conns| && forall k :: 0 <= k < |s.conns| && k != i ==> s2.conns[k] == s.conns[k]
    requires !s2.conns[i].rev && !s2.conns[i].wev && !s2.conns[i].closing
    requires s'.conns == s2.conns && s'.lives == s2.lives && s'.freeHead == s2.freeHead && s'.freeN == s2.freeN
    requires s'.usedN == s2.usedN && |s'.mysqls| == |s2.mysqls| && |s'.ldaps| == |s2.ldaps|
    requires |s'.places| == |s'.jobs| && s'.jobs == s.jobs + [job] && s'.places[..|s.places|] == s.places && s'.places[|s.jobs|].AtLdap?
    ensures Core(s', free')
  {
    Unaffected(s2, s', free');
    forall id | 0 <= id < |s'.jobs|
      ensures JobOk(s', free', id)
    {
      if id < |s.jobs| {
        assert JobOk(s, free, id);
        assert s'.places[id] == s'.places[..|s.places|][id];
      }
    }
    forall a, b | 0 <= a < b < |s'.jobs| && s'.jobs[a].Reg? && s'.jobs[b].Reg? && s'.jobs[a].slot == s'.jobs[b].slot
      ensures s'.jobs[a].life < s'.jobs[b].life
    {
      assert JobOk(s, free, a);
    }
  }

  /** A closed connection goes back to the pool. */
  lemma FreeInv(s: State, free: Slots, distinct: bool, i: int)
    requires Inv(s, free, distinct) && InPool(s, i) && i !in SlotSet(free) && s.conns[i].closed
    // the assertion of __discard_list_data
    ensures s.conns[i].discard
    ensures Inv(FreeConnection(s, i), SCons(i, free), distinct)
  {
    var s', free' := FreeConnection(s, i), SCons(i, free);
    HistoryFree(s, s', free, distinct, i);
    assert ConnOk(s, i, false);
    Registered(s, free, i);
    ChainFrame(s.conns, s'.conns, s.freeHead, free);
    forall k | 0 <= k < |s'.conns|
      ensures ConnOk(s', k, k in SlotSet(free'))
    {
      assert ConnOk(s, k, k in SlotSet(free));
    }
    forall id | 0 <= id < |s'.jobs|
      ensures JobOk(s', free', id)
    {
      assert JobOk(s, free, id);
    }
  }

  lemma CloseInv(s: State, free: Slots, distinct: bool, i: int) returns (free': Slots)
    requires Inv(s, free, distinct) && InPool(s, i) && i !in SlotSet(free)
    ensures Inv(CloseIfClosed(s, i), free', distinct)
    ensures free' == if s.conns[i].closed then SCons(i, free) else free
  {
    free' := free;
    if s.conns[i].closed {
      FreeInv(s, free, distinct, i);
      free' := SCons(i, free);
    }
  }

  lemma RequestInv(s: State, free: Slots, distinct: bool, i: int, r: Request)
    requires Inv(s, free, distinct) && InPool(s, i) && i !in SlotSet(free) && NoReg(s, i)
    ensures Inv(DoRequest(s, i, r), free, distinct) && NoReg(DoRequest(s, i, r), i)
  {
    assert ConnOk(s, i, false);
    match r {
      case Bind(msgid) => ConnSet(s, free, distinct, i, s.conns[i].(rpl := s.conns[i].rpl + [[BindResponse(msgid)]]));
      case Unbind(_) => ConnSet(s, free, distinct, i, IoUnregister(s.conns[i]));
      case Search(_, _, _, _) => QueryPushed(s, free, distinct, i, r);
      case _ =>
    }
  }

  /** The next request leaves the list. */
  lemma TakeRequest(s: State, free: Slots, distinct: bool, i: int, c: Conn)
    requires Inv(s, free, distinct) && InPool(s, i) && i !in SlotSet(free) && NoReg(s, i)
    requires s.conns[i].req != [] && c == s.conns[i].(req := s.conns[i].req[1..])
    ensures Inv(SetConn(s, i, c), free, distinct) && NoReg(SetConn(s, i, c), i)
  {
    assert ConnOk(s, i, false);
    ConnSet(s, free, distinct, i, c);
  }

  lemma {:induction false} RequestsInv(s: State, free: Slots, distinct: bool, i: int)
    requires Inv(s, free, distinct) && InPool(s, i) && i !in SlotSet(free) && NoReg(s, i)
    ensures Inv(ProcessRequests(s, i).0, free, distinct) && NoReg(ProcessRequests(s, i).0, i)
    decreases |s.conns[i].req|
  {
    hide Core, History, NoReg;
    var c := s.conns[i];
    if c.req != [] {
      var c' := c.(req := c.req[1..]);
      TakeRequest(s, free, distinct, i, c');
      if !c.req[0].NoMsgid? {
        RequestInv(SetConn(s, i, c'), free, distinct, i, c.req[0]);
        RequestsInv(DoRequest(SetConn(s, i, c'), i, c.req[0]), free, distinct, i);
      }
    }
  }

  lemma ReadInv(s: State, free: Slots, distinct: bool, i: int, ev: IoEvent)
    requires Inv(s, free, distinct) && InPool(s, i) && i !in SlotSet(free) && NoReg(s, i)
    ensures Inv(ReadPart(s, i, ev).0, free, distinct) && NoReg(ReadPart(s, i, ev).0, i)
  {
    if ev.read {
      assert ConnOk(s, i, false);
      var c := s.conns[i].(req := s.conns[i].req + ev.arrived);
      var c1 := if ev.readFails then IoUnregister(c) else c;
      ConnSet(s, free, distinct, i, c1);
      RequestsInv(SetConn(s, i, c1), free, distinct, i);
    }
  }

  /** Events fire only for a connection whose events are added. */
  ghost predicate CanFire(s: State, i: int) {
    InPool(s, i) && (s.conns[i].rev || s.conns[i].wev)
  }

  lemma EventInv(s: State, free: Slots, distinct: bool, i: int, ev: IoEvent) returns (free': Slots)
    requires Inv(s, free, distinct) && CanFire(s, i)
    ensures i !in SlotSet(free) && Inv(HandleEvent(s, i, ev), free', distinct) && (free' == free || free' == SCons(i, free))
  {
    assert ConnOk(s, i, i in SlotSet(free));
    Registered(s, free, i);
    free' := free;
    var c := s.conns[i];
    if ev.timeout {
      ConnSet(s, free, distinct, i, IoUnregister(c));
      free' := CloseInv(SetConn(s, i, IoUnregister(c)), free, distinct, i);
    } else {
      ReadInv(s, free, distinct, i, ev);
      var (s1, on) := ReadPart(s, i, ev);
      if on {
        assert ConnOk(s1, i, false);
        var c1 := WritePart(s1.conns[i], ev);
        ConnSet(s1, free, distinct, i, c1);
        free' := CloseInv(SetConn(s1, i, c1), free, distinct, i);
      }
    }
  }

  /** A task taken from the front of a queue and put at place `to`, at the end of
      that queue with the answer in it, or nowhere. */
  function Moved(s: State, from: Place, to: Place, code: int): State
    requires match from
             case AtMysql(m) => m < |s.mysqls| && s.mysqls[m] != [] && s.mysqls[m][0].id < |s.places|
             case AtLdap(l) => l < |s.ldaps| && s.ldaps[l] != [] && s.ldaps[l][0].id < |s.places|
             case Gone => false
    requires to.AtLdap? && from.AtMysql? ==> to.l < |s.ldaps|
  {
    match from
    case AtLdap(l) => s.(ldaps := s.ldaps[l := s.ldaps[l][1..]], places := s.places[s.ldaps[l][0].id := Gone])
    case AtMysql(m) =>
      var t := s.mysqls[m][0];
      var s1 := s.(mysqls := s.mysqls[m := s.mysqls[m][1..]], places := s.places[t.id := Gone]);
      if to.AtLdap? then
        s1.(places := s.places[t.id := to], ldaps := s.ldaps[to.l := s.ldaps[to.l] + [Task(t.id, t.job, to.l, code)]])
      else s1
    case Gone => s
  }

  /** The task at the front of a queue. */
  ghost predicate Front(s: State, q: seq<Task>, place: Place) {
    q != [] && q[0].id < |s.jobs| == |s.places| && q[0].job == s.jobs[q[0].id] && s.places[q[0].id] == place
  }

  lemma LdapPopped(s: State, l: nat)
    requires Queues(s) && l < |s.ldaps| && s.ldaps[l] != []
    ensures Front(s, s.ldaps[l], AtLdap(l)) && s.ldaps[l][0].receiver == l
    ensures s.ldaps[l][0].code == 0 || s.ldaps[l][0].code == -1
    ensures Queues(Moved(s, AtLdap(l), Gone, 0))
  {
    var t, s' := s.ldaps[l][0], Moved(s, AtLdap(l), Gone, 0);
    assert QueueOk(s.ldaps[l], AtLdap(l), l, s.jobs, s.places);
    forall m | 0 <= m < |s'.mysqls|
      ensures QueueOk(s'.mysqls[m], AtMysql(m), m, s'.jobs, s'.places)
    {
      QueueOther(s.mysqls[m], AtMysql(m), m, s.jobs, s.places, t.id, Gone);
    }
    forall k | 0 <= k < |s'.ldaps|
      ensures QueueOk(s'.ldaps[k], AtLdap(k), k, s'.jobs, s'.places)
    {
      if k == l {
        QueuePop(s.ldaps[l], AtLdap(l), l, s.jobs, s.places, Gone);
      } else {
        QueueOther(s.ldaps[k], AtLdap(k), k, s.jobs, s.places, t.id, Gone);
      }
    }
  }

  lemma MysqlPopped(s: State, m: nat, to: Place, code: int)
    requires Queues(s) && m < |s.mysqls| && s.mysqls[m] != [] && !to.AtMysql? && (to.AtLdap? ==> to.l < |s.ldaps|)
    requires code == 0 || code == -1
    ensures Front(s, s.mysqls[m], AtMysql(m)) && s.mysqls[m][0].receiver == m && s.mysqls[m][0].job.Ask?
    ensures Queues(Moved(s, AtMysql(m), to, code))
  {
    var t, s' := s.mysqls[m][0], Moved(s, AtMysql(m), to, code);
    assert QueueOk(s.mysqls[m], AtMysql(m), m, s.jobs, s.places);
    assert s'.places == s.places[t.id := to];
    forall k | 0 <= k < |s'.mysqls|
      ensures QueueOk(s'.mysqls[k], AtMysql(k), k, s'.jobs, s'.places)
    {
      if k == m {
        QueuePop(s.mysqls[m], AtMysql(m), m, s.jobs, s.places, to);
      } else {
        QueueOther(s.mysqls[k], AtMysql(k), k, s.jobs, s.places, t.id, to);
      }
    }
    forall l | 0 <= l < |s'.ldaps|
      ensures QueueOk(s'.ldaps[l], AtLdap(l), l, s'.jobs, s'.places)
    {
      if to == AtLdap(l) {
        QueueArrive(s.ldaps[l], AtLdap(l), l, s.jobs, s.places, Task(t.id, t.job, l, code));
      } else {
        QueueOther(s.ldaps[l], AtLdap(l), l, s.jobs, s.places, t.id, to);
      }
    }
  }

  /** The next task of a thread is taken. */
  lemma TaskTaken(s: State, free: Slots, l: nat)
    requires Core(s, free) && l < |s.ldaps| && s.ldaps[l] != []
    ensures Front(s, s.ldaps[l], AtLdap(l)) && s.ldaps[l][0].receiver == l
    ensures InPool(s, s.ldaps[l][0].job.slot) && Core(Moved(s, AtLdap(l), Gone, 0), free)
    ensures s.ldaps[l][0].job.Reg? ==>
      var i := s.ldaps[l][0].job.slot; i !in SlotSet(free) && !s.conns[i].closing && NoReg(Moved(s, AtLdap(l), Gone, 0), i)
  {
    LdapPopped(s, l);
    var t, s' := s.ldaps[l][0], Moved(s, AtLdap(l), Gone, 0);
    assert JobOk(s, free, t.id);
    Unaffected(s, s', free);
    forall id | 0 <= id < |s'.jobs|
      ensures JobOk(s', free, id)
    {
      assert JobOk(s, free, id);
    }
    if t.job.Reg? {
      forall id | 0 <= id < |s'.jobs| && s'.jobs[id].Reg? && s'.jobs[id].slot == t.job.slot
        ensures s'.places[id].Gone?
      {
        assert JobOk(s, free, id);
      }
    }
  }

  /** A late answer that is dropped is not for a used connection's present
      incarnation, if ticks are distinct. */
  lemma DroppedIsLate(s: State, free: Slots, id: nat)
    requires History(s, free, true) && id < |s.jobs| && Outstanding(s.jobs, s.places, id)
    requires s.jobs[id].slot < |s.conns| && s.jobs[id].slot !in SlotSet(free)
    requires s.jobs[id].life == s.lives[s.jobs[id].slot]
    ensures s.jobs[id].tick in s.conns[s.jobs[id].slot].ticks
  {
    WaitHas(s.jobs, s.places, id, |s.jobs|);
    TickThere(s.conns[s.jobs[id].slot].ticks, s.jobs[id].tick);
  }

  /** A used connection with another tick list and reply list. */
  lemma ListsSet(s: State, free: Slots, i: int, c: Conn)
    requires Core(s, free) && InPool(s, i) && i !in SlotSet(free)
    requires c == s.conns[i].(ticks := c.ticks, rpl := c.rpl, sent := c.sent)
    ensures Core(SetConn(s, i, c), free)
  {
    assert ConnOk(s, i, i in SlotSet(free));
    if c.rev || c.wev || c.closing {
      Registered(s, free, i);
    }
    CoreSet(s, free, i, c);
  }

  /** The logs that Core does not look at. */
  lemma CoreLogged(s: State, s': State, free: Slots)
    requires Core(s, free) && s' == s.(accepted := s'.accepted)
    ensures Core(s', free)
  {
    Unaffected(s, s', free);
    forall id | 0 <= id < |s'.jobs|
      ensures JobOk(s', free, id)
    {
      assert JobOk(s, free, id);
    }
  }

  /** An answer whose tick is found, up to the history. */
  lemma AnswerCore(s: State, free: Slots, l: nat, written: nat)
    requires Core(s, free) && l < |s.ldaps| && s.ldaps[l] != []
    requires Front(s, s.ldaps[l], AtLdap(l)) && s.ldaps[l][0].job.Ask? && InPool(s, s.ldaps[l][0].job.slot)
    requires s.ldaps[l][0].job.tick in s.conns[s.ldaps[l][0].job.slot].ticks
    ensures s.ldaps[l][0].job.slot !in SlotSet(free) && Core(TaskProcess(s, l, written), free)
  {
    TaskTaken(s, free, l);
    var t, s1 := s.ldaps[l][0], Moved(s, AtLdap(l), Gone, 0);
    var i, c := t.job.slot, s.conns[t.job.slot];
    assert ConnOk(s, i, i in SlotSet(free));
    var c1 := c.(ticks := Remove(c.ticks, t.job.tick));
    ListsSet(s1, free, i, c1);
    if c.ldap == l {
      var s2 := SetConn(s1, i, c1);
      var c2 := WriteReplies(c1.(rpl := c1.rpl + [SearchPacket(t.job.msgid, t.code)]), written);
      ListsSet(s2, free, i, c2);
      CoreLogged(SetConn(s2, i, c2), TaskProcess(s, l, written), free);
    }
  }

  lemma PacketAnswers(msgid: int, code: int)
    ensures Answers(SearchPacket(msgid, code), msgid)
  {
  }

  /** With distinct ticks, an answer whose tick is found is for the incarnation
      that asked. */
  lemma AnswerInv(s: State, free: Slots, distinct: bool, l: nat, written: nat)
    requires Inv(s, free, distinct) && (distinct ==> DistinctTicks(s)) && l < |s.ldaps| && s.ldaps[l] != []
    requires Front(s, s.ldaps[l], AtLdap(l)) && s.ldaps[l][0].job.Ask? && InPool(s, s.ldaps[l][0].job.slot)
    requires s.ldaps[l][0].job.tick in s.conns[s.ldaps[l][0].job.slot].ticks
    ensures Inv(TaskProcess(s, l, written), free, distinct)
  {
    AnswerCore(s, free, l, written);
    var t, s' := s.ldaps[l][0], TaskProcess(s, l, written);
    if distinct {
      TickIsCurrent(s, free, t.id);
    }
    PacketAnswers(t.job.msgid, t.code);
    HistoryAnswer(s, s', free, distinct, t.id, s.conns[t.job.slot].ldap == l, SearchPacket(t.job.msgid, t.code));
  }

  lemma TaskInv(s: State, free: Slots, distinct: bool, l: nat, written: nat)
    requires Inv(s, free, distinct) && (distinct ==> DistinctTicks(s)) && l < |s.ldaps| && s.ldaps[l] != []
    ensures Front(s, s.ldaps[l], AtLdap(l)) && InPool(s, s.ldaps[l][0].job.slot)
    // the assertion of __ldap_notify_cb, and the codes that lp_search_reply knows
    ensures s.ldaps[l][0].receiver == l && (s.ldaps[l][0].code == 0 || s.ldaps[l][0].code == -1)
    ensures Inv(TaskProcess(s, l, written), free, distinct)
  {
    TaskTaken(s, free, l);
    LdapPopped(s, l);
    var t, s1 := s.ldaps[l][0], Moved(s, AtLdap(l), Gone, 0);
    var i := t.job.slot;
    match t.job {
      case Reg(_, _) =>
        HistoryMoved(s, s1, free, distinct, t.id, Gone);
        assert ConnOk(s1, i, i in SlotSet(free));
        ConnSet(s1, free, distinct, i, RegisterEvents(s.conns[i]));
      case Ask(_, _, _, _, tick) =>
        if tick in s.conns[i].ticks {
          AnswerInv(s, free, distinct, l, written);
        } else {
          if distinct && i !in SlotSet(free) && t.job.life == s.lives[i] {
            DroppedIsLate(s, free, t.id);
          }
          HistoryMoved(s, s1, free, distinct, t.id, Gone);
        }
    }
  }

  lemma WorkerInv(s: State, free: Slots, distinct: bool, m: nat, user: int, list: int)
    requires Inv(s, free, distinct) && m < |s.mysqls| && s.mysqls[m] != []
    ensures Front(s, s.mysqls[m], AtMysql(m)) && s.mysqls[m][0].job.Ask? && InPool(s, s.mysqls[m][0].job.slot)
    ensures s.conns[s.mysqls[m][0].job.slot].ldap < |s.ldaps|
    ensures Inv(WorkerStep(s, m, user, list), free, distinct)
  {
    MysqlPopped(s, m, Gone, 0);
    var t := s.mysqls[m][0];
    assert JobOk(s, free, t.id);
    var i := t.job.slot;
    assert ConnOk(s, i, i in SlotSet(free));
    var l, code := s.conns[i].ldap, LookupCode(t.job.filter, user, list);
    var to := if l < 0 then Gone else AtLdap(l);
    MysqlPopped(s, m, to, code);
    var s' := Moved(s, AtMysql(m), to, code);
    assert s' == WorkerStep(s, m, user, list);
    Unaffected(s, s', free);
    HistoryMoved(s, s', free, distinct, t.id, to);
    forall id | 0 <= id < |s'.jobs|
      ensures JobOk(s', free, id)
    {
      assert JobOk(s, free, id);
    }
  }
}
