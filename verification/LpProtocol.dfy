/** The proxy as a state machine: a pool of recycled connections, worker threads
    that look queries up, and replies that may come back too late.

    Every step is atomic. What the clock, the sockets and the lookup give is part
    of the step. */
module LpProtocol {
  import opened Ctype

  const NONE := -1

  // ----- what travels

  /** A search filter; only equality matches are looked at. */
  datatype Filter = Equality(attribute: string, assertionValue: string) | OtherFilter

  /** A request as it is taken from the request list: a search also carries the
      worker's turn and the tick it will get. */
  datatype Request =
    | Bind(msgid: int)
    | Unbind(msgid: int)
    | Search(msgid: int, filter: Filter, turn: nat, tick: int)
    | Unimplemented(msgid: int)
    | Malformed(msgid: int)
    | NoMsgid

  /** LDAP messages to the client. */
  datatype Msg = BindResponse(msgid: int) | SearchEntry(msgid: int) | SearchDone(msgid: int)

  /** What a task is about: registering a connection's events, or a query. `life`
      tells the incarnations of a slot apart; the program does not have it. */
  datatype Job = Reg(slot: nat, life: nat) | Ask(slot: nat, life: nat, msgid: int, filter: Filter, tick: int)

  /** struct lp_task_s. The number `id` is a name for the task and, for an answer,
      the query it answers; the program does not have it. */
  datatype Task = Task(id: nat, job: Job, receiver: nat, code: int)

  datatype Place = AtMysql(m: nat) | AtLdap(l: nat) | Gone

  /** struct lp_connection_s, with its two events: rev and wev say whether they
      are added. `data` is the next free slot while the connection is free. What was
      sent is a log that the program does not have. */
  datatype Conn = Conn(idx: int, fd: int, data: int, active: bool, closing: bool, closed: bool, wevActive: bool,
                       rev: bool, wev: bool, discard: bool, ldap: int, ticks: seq<int>,
                       req: seq<Request>, rpl: seq<seq<Msg>>, sent: seq<seq<Msg>>)

  /** A reply that was put on a connection's reply list. */
  datatype Accept = Accept(id: nat, slot: nat, life: nat, packet: seq<Msg>)

  /** The connections, the queues, and a history: how often each slot was handed
      out, every task ever made and where it is, every accepted reply and every
      freed incarnation. */
  datatype State = State(
    conns: seq<Conn>, freeHead: int, freeN: int, usedN: int,
    mysqls: seq<seq<Task>>, ldaps: seq<seq<Task>>,
    lives: seq<nat>, jobs: seq<Job>, places: seq<Place>, accepted: seq<Accept>, freed: seq<(int, nat)>)

  // ----- lp_connection.c

  /** A connection that was zeroed: only its index is kept. */
  function Blank(idx: int, fd: int, data: int): Conn {
    Conn(idx, fd, data, false, false, false, false, false, false, false, NONE, [], [], [], [])
  }

  predicate InPool(s: State, i: int) {
    0 <= i < |s.conns| && |s.lives| == |s.conns| && 0 < |s.mysqls|
  }

  /** lp_get_connection; NONE if there is no free one. */
  function GetConnection(s: State, fd: int): (r: (State, int))
    requires s.freeHead == NONE || InPool(s, s.freeHead)
    ensures r.1 == s.freeHead
  {
    if s.freeHead == NONE then (s, NONE)
    else
      var i := s.freeHead;
      (s.(freeHead := s.conns[i].data, freeN := s.freeN - 1, usedN := s.usedN + 1,
          conns := s.conns[i := s.conns[i].(fd := fd)], lives := s.lives[i := s.lives[i] + 1]),
       i)
  }

  /** lp_free_connection */
  function FreeConnection(s: State, i: int): State
    requires InPool(s, i)
  {
    s.(conns := s.conns[i := Blank(s.conns[i].idx, 0, s.freeHead)],
       freeHead := i, freeN := s.freeN + 1, usedN := s.usedN - 1, freed := s.freed + [(i, s.lives[i])])
  }

  // ----- lp_ldap.c

  /** lp_ldap_io_register for an accepted socket, with ldap thread l. */
  function IoRegister(s: State, fd: int, l: nat): State
    requires (s.freeHead == NONE || InPool(s, s.freeHead)) && l < |s.ldaps|
  {
    var (s1, i) := GetConnection(s, fd);
    if i == NONE then s
    else
      var id, job := |s1.jobs|, Reg(i, s1.lives[i]);
      s1.(conns := s1.conns[i := s1.conns[i].(ldap := l, discard := true, active := true)],
          jobs := s1.jobs + [job], places := s1.places + [AtLdap(l)],
          ldaps := s1.ldaps[l := s1.ldaps[l] + [Task(id, job, l, 0)]])
  }

  /** __io_unregister, with event_del succeeding. */
  function IoUnregister(c: Conn): Conn {
    if c.closed then c.(closing := true)
    else c.(closing := true, rev := false, wev := c.wev && !c.wevActive, closed := true)
  }

  function SetConn(s: State, i: int, c: Conn): State
    requires InPool(s, i)
  {
    s.(conns := s.conns[i := c])
  }

  /** lp_mysql_push_task, with the tick registered first. */
  function PushQuery(s: State, i: int, r: Request): State
    requires InPool(s, i) && r.Search?
  {
    var id, job, m := |s.jobs|, Ask(i, s.lives[i], r.msgid, r.filter, r.tick), r.turn % |s.mysqls|;
    s.(conns := s.conns[i := s.conns[i].(ticks := s.conns[i].ticks + [r.tick])],
       jobs := s.jobs + [job], places := s.places + [AtMysql(m)],
       mysqls := s.mysqls[m := s.mysqls[m] + [Task(id, job, m, 0)]])
  }

  /** The operation on one request. */
  function DoRequest(s: State, i: int, r: Request): State
    requires InPool(s, i)
  {
    var c := s.conns[i];
    match r
    case Bind(msgid) => SetConn(s, i, c.(rpl := c.rpl + [[BindResponse(msgid)]]))
    case Unbind(_) => SetConn(s, i, IoUnregister(c))
    case Search(_, _, _, _) => PushQuery(s, i, r)
    case _ => s
  }

  /** __ldap_process_request: whether it reached the end of the list. */
  function ProcessRequests(s: State, i: int): (r: (State, bool))
    requires InPool(s, i)
    ensures InPool(r.0, i)
    decreases |s.conns[i].req|
  {
    var c := s.conns[i];
    if c.req == [] then (s, true)
    else
      var r, s1 := c.req[0], SetConn(s, i, c.(req := c.req[1..]));
      if r.NoMsgid? then (s1, false) else ProcessRequests(DoRequest(s1, i, r), i)
  }

  /** What happens to a connection: which events fire, which requests arrive
      before the read ends in an error or for lack of data, how many replies are
      written before the write does. */
  datatype IoEvent = IoEvent(timeout: bool, read: bool, arrived: seq<Request>, readFails: bool,
                             write: bool, written: nat, writeFails: bool)

  /** __ldap_write */
  function WriteReplies(c: Conn, written: nat): Conn {
    var n := if written <= |c.rpl| then written else |c.rpl|;
    c.(rpl := c.rpl[n..], sent := c.sent + c.rpl[..n])
  }

  /** The end of the event handler. */
  function CloseIfClosed(s: State, i: int): State
    requires InPool(s, i)
  {
    if s.conns[i].closed then FreeConnection(s, i) else s
  }

  /** The reading part of the event handler: whether it goes on. */
  function ReadPart(s: State, i: int, ev: IoEvent): (r: (State, bool))
    requires InPool(s, i)
    ensures InPool(r.0, i)
  {
    if !ev.read then (s, true)
    else
      var c := s.conns[i].(req := s.conns[i].req + ev.arrived);
      ProcessRequests(SetConn(s, i, if ev.readFails then IoUnregister(c) else c), i)
  }

  function WritePart(c: Conn, ev: IoEvent): Conn {
    if !ev.write then c
    else
      var c1 := WriteReplies(c, ev.written);
      if ev.writeFails then IoUnregister(c1) else c1
  }

  /** lp_ldap_io_event_handler */
  function HandleEvent(s: State, i: int, ev: IoEvent): State
    requires InPool(s, i)
  {
    var c := s.conns[i];
    if c.closing then s
    else if ev.timeout then CloseIfClosed(SetConn(s, i, IoUnregister(c)), i)
    else if !c.active then s
    else
      var (s1, on) := ReadPart(s, i, ev);
      if !on then s1
      else CloseIfClosed(SetConn(s1, i, WritePart(s1.conns[i], ev)), i)
  }

  /** __process_server_task */
  function RegisterEvents(c: Conn): Conn {
    c.(rev := true, wev := true, wevActive := true)
  }

  // ----- lp_task.c

  /** The ticks without the first that is t: lp_conn_check_task_tick. */
  function Remove(ticks: seq<int>, t: int): seq<int> {
    if ticks == [] then []
    else if ticks[0] == t then ticks[1..]
    else [ticks[0]] + Remove(ticks[1..], t)
  }

  // ----- lp_ldap_logic.c

  /** lp_search_reply: an entry only if the lookup succeeded, and always a final
      message, which reports success. */
  function SearchPacket(msgid: int, code: int): (p: seq<Msg>)
    ensures code == 0 ==> p == [SearchEntry(msgid), SearchDone(msgid)]
    ensures code != 0 ==> p == [SearchDone(msgid)]
  {
    if code == 0 then [SearchEntry(msgid), SearchDone(msgid)] else [SearchDone(msgid)]
  }

  /** __process_mysql_task, after the tick check. */
  function ProcessAnswer(s: State, l: nat, t: Task, written: nat): State
    requires t.job.Ask? && InPool(s, t.job.slot)
  {
    var i := t.job.slot;
    var c := s.conns[i];
    if c.ldap != l then s
    else
      var packet := SearchPacket(t.job.msgid, t.code);
      SetConn(s, i, WriteReplies(c.(rpl := c.rpl + [packet]), written))
      .(accepted := s.accepted + [Accept(t.id, i, s.lives[i], packet)])
  }

  /** __task_process, for the next task in the queue of thread l. */
  function TaskProcess(s: State, l: nat, written: nat): State
    requires l < |s.ldaps| && s.ldaps[l] != [] && s.ldaps[l][0].id < |s.places|
    requires InPool(s, s.ldaps[l][0].job.slot)
  {
    var t := s.ldaps[l][0];
    var s1 := s.(ldaps := s.ldaps[l := s.ldaps[l][1..]], places := s.places[t.id := Gone]);
    var c := s.conns[t.job.slot];
    match t.job
    case Reg(i, _) => SetConn(s1, i, RegisterEvents(c))
    case Ask(i, _, _, _, tick) =>
      if tick !in c.ticks then s1
      else ProcessAnswer(SetConn(s1, i, c.(ticks := Remove(c.ticks, tick))), l, t, written)
  }

  // ----- lp_mysql.c

  /** strcasecmp(a, b) == 0 */
  predicate SameText(a: string, b: string) {
    |a| == |b| && forall k :: 0 <= k < |a| ==> ToLower(a[k]) == ToLower(b[k])
  }

  /** The lookup finds what the filter asks for: anything but a mail address that is
      neither a user nor a list, and an attribute that is not looked at. */
  predicate Found(filter: Filter, user: int, list: int) {
    match filter
    case OtherFilter => true
    case Equality(attribute, _) =>
      SameText("domain", attribute) || (SameText("mail", attribute) && (user == 0 || list == 0))
  }

  /** The code of a reply; user and list are what the two lookups return. */
  function LookupCode(filter: Filter, user: int, list: int): (code: int)
    ensures code == 0 || code == -1
  {
    var ret :=
      if filter.OtherFilter? then 0
      else if SameText("mail", filter.attribute) then (if user != 0 then list else user)
      else if SameText("domain", filter.attribute) then 0
      else -1;
    if ret == 0 then 0 else -1
  }

  /** One round of __mysql_routine of worker m. The answer goes to the thread that
      the connection belongs to now, and is lost if it belongs to none. */
  function WorkerStep(s: State, m: nat, user: int, list: int): State
    requires m < |s.mysqls| && s.mysqls[m] != [] && s.mysqls[m][0].id < |s.places|
    requires var t := s.mysqls[m][0]; t.job.Ask? && InPool(s, t.job.slot) && s.conns[t.job.slot].ldap < |s.ldaps|
  {
    var t := s.mysqls[m][0];
    var s1 := s.(mysqls := s.mysqls[m := s.mysqls[m][1..]], places := s.places[t.id := Gone]);
    var l := s.conns[t.job.slot].ldap;
    if t.receiver != m || l < 0 then s1
    else
      s1.(places := s.places[t.id := AtLdap(l)],
          ldaps := s.ldaps[l := s.ldaps[l] + [Task(t.id, t.job, l, LookupCode(t.job.filter, user, list))]])
  }
}
