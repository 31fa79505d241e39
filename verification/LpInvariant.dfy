/** What holds between any two steps of the proxy. */
module LpInvariant {
  import opened LpProtocol

  // ----- the pool

  /** The free slots, as their data pointers link them. */
  datatype Slots = SNil | SCons(i: int, tail: Slots)

  ghost predicate FreeChain(conns: seq<Conn>, head: int, free: Slots)
    decreases free
  {
    match free
    case SNil => head == NONE
    case SCons(i, tail) => head == i && 0 <= i < |conns| && FreeChain(conns, conns[i].data, tail)
  }

  ghost function SlotSet(free: Slots): set<int> {
    if free.SNil? then {} else {free.i} + SlotSet(free.tail)
  }

  ghost predicate Distinct(free: Slots) {
    free.SCons? ==> free.i !in SlotSet(free.tail) && Distinct(free.tail)
  }

  ghost function Count(free: Slots): nat {
    if free.SNil? then 0 else 1 + Count(free.tail)
  }

  /** Free and used connections add up, and no slot is free twice. */
  ghost predicate Pool(s: State, free: Slots) {
    && |s.lives| == |s.conns| && 0 < |s.mysqls|
    && FreeChain(s.conns, s.freeHead, free) && Distinct(free)
    && s.freeN == Count(free) && s.freeN + s.usedN == |s.conns|
  }

  /** A free slot is blank; a used one belongs to a thread, and its events are gone
      once it is closed. */
  ghost predicate ConnOk(s: State, i: int, isFree: bool)
    requires InPool(s, i)
  {
    var c := s.conns[i];
    && c.idx == i
    && if isFree then c == Blank(i, c.fd, c.data)
       else
         && c.active && c.discard && 0 <= c.ldap < |s.ldaps| && 0 < s.lives[i]
         && (c.closing <==> c.closed) && (c.closed ==> !c.rev && !c.wev) && (c.wev ==> c.wevActive)
  }

  ghost predicate Conns(s: State, free: Slots) {
    && |s.lives| == |s.conns| && 0 < |s.mysqls|
    && forall i :: 0 <= i < |s.conns| ==> ConnOk(s, i, i in SlotSet(free))
  }

  lemma {:induction false} ChainFrame(conns: seq<Conn>, conns': seq<Conn>, head: int, free: Slots)
    requires FreeChain(conns, head, free) && |conns'| == |conns|
    requires forall i :: i in SlotSet(free) && 0 <= i < |conns| ==> conns'[i].data == conns[i].data
    ensures FreeChain(conns', head, free)
    decreases free
  {
    if free.SCons? {
      ChainFrame(conns, conns', conns[head].data, free.tail);
    }
  }

  // ----- the tasks

  /** A job that is still on its way: a registration is for the slot's current
      incarnation, which has no events yet. */
  ghost predicate JobOk(s: State, free: Slots, id: nat)
    requires id < |s.jobs| == |s.places|
  {
    var j := s.jobs[id];
    && InPool(s, j.slot) && 0 < j.life <= s.lives[j.slot]
    && (s.places[id].Gone? ||
        (if j.Reg?
         then
           && j.life == s.lives[j.slot] && j.slot !in SlotSet(free)
           && s.places[id].AtLdap?
           && !s.conns[j.slot].rev && !s.conns[j.slot].wev && !s.conns[j.slot].closing
         else
           (j.life == s.lives[j.slot] && j.slot !in SlotSet(free) && s.places[id].AtLdap? ==>
              s.places[id].l == s.conns[j.slot].ldap)))
  }

  /** An incarnation is registered once. */
  ghost predicate OneReg(s: State) {
    forall a, b :: 0 <= a < b < |s.jobs| && s.jobs[a].Reg? && s.jobs[b].Reg? && s.jobs[a].slot == s.jobs[b].slot ==>
      s.jobs[a].life < s.jobs[b].life
  }

  ghost predicate Jobs(s: State, free: Slots) {
    |s.jobs| == |s.places| && OneReg(s) && forall id :: 0 <= id < |s.jobs| ==> JobOk(s, free, id)
  }

  /** A queue holds tasks that are there, each of them once. */
  ghost predicate QueueOk(q: seq<Task>, place: Place, receiver: nat, jobs: seq<Job>, places: seq<Place>) {
    && |jobs| == |places|
    && (forall k :: 0 <= k < |q| ==>
          q[k].id < |jobs| && q[k].job == jobs[q[k].id] && places[q[k].id] == place && q[k].receiver == receiver
          && (place.AtMysql? ==> q[k].job.Ask?) && (q[k].code == 0 || q[k].code == -1))
    && (forall j, k :: 0 <= j < k < |q| ==> q[j].id != q[k].id)
  }

  ghost predicate Queues(s: State) {
    && (forall m :: 0 <= m < |s.mysqls| ==> QueueOk(s.mysqls[m], AtMysql(m), m, s.jobs, s.places))
    && (forall l :: 0 <= l < |s.ldaps| ==> QueueOk(s.ldaps[l], AtLdap(l), l, s.jobs, s.places))
  }

  // ----- the history

  /** How many queries incarnation `life` of slot i made. */
  ghost function AskCount(jobs: seq<Job>, i: int, life: nat): nat {
    if jobs == [] then 0
    else
      var j := jobs[|jobs| - 1];
      AskCount(jobs[..|jobs| - 1], i, life) + if j.Ask? && j.slot == i && j.life == life then 1 else 0
  }

  /** How many replies it got. */
  ghost function AcceptCount(accepted: seq<Accept>, i: int, life: nat): nat {
    if accepted == [] then 0
    else
      var a := accepted[|accepted| - 1];
      AcceptCount(accepted[..|accepted| - 1], i, life) + if a.slot == i && a.life == life then 1 else 0
  }

  /** A query that no reply was processed for yet. */
  ghost predicate Outstanding(jobs: seq<Job>, places: seq<Place>, id: nat)
    requires id < |jobs| == |places|
  {
    jobs[id].Ask? && !places[id].Gone?
  }

  /** Whether a task is an outstanding query of that incarnation with that tick. */
  ghost predicate Waits(job: Job, place: Place, i: int, life: nat, tick: int) {
    job.Ask? && !place.Gone? && job.slot == i && job.life == life && job.tick == tick
  }

  /** How many of the first n tasks are. */
  ghost function WaitCount(jobs: seq<Job>, places: seq<Place>, i: int, life: nat, tick: int, n: nat): nat
    requires n <= |jobs| == |places|
  {
    if n == 0 then 0
    else WaitCount(jobs, places, i, life, tick, n - 1) + if Waits(jobs[n - 1], places[n - 1], i, life, tick) then 1 else 0
  }

  /** How often a connection keeps a tick. */
  ghost function TickCount(ticks: seq<int>, tick: int): nat {
    if ticks == [] then 0 else (if ticks[0] == tick then 1 else 0) + TickCount(ticks[1..], tick)
  }

  /** Queries of one connection that are outstanding at the same time have
      different ticks. */
  ghost predicate DistinctTicks(s: State) {
    |s.jobs| == |s.places| &&
    forall a, b :: 0 <= a < b < |s.jobs| && Outstanding(s.jobs, s.places, a) && Outstanding(s.jobs, s.places, b) ==>
      s.jobs[a].slot != s.jobs[b].slot || s.jobs[a].tick != s.jobs[b].tick
  }

  /** Every message of a packet answers that message id. */
  ghost predicate Answers(packet: seq<Msg>, msgid: int) {
    && packet != [] && packet[|packet| - 1] == SearchDone(msgid)
    && forall k :: 0 <= k < |packet| - 1 ==> packet[k] == SearchEntry(msgid)
  }

  /** An accepted reply answers a query of that connection with its message id;
      with distinct ticks, in the incarnation that made the query. */
  ghost predicate AcceptOk(s: State, a: Accept, distinct: bool) {
    && a.id < |s.jobs| == |s.places| && s.jobs[a.id].Ask? && s.places[a.id].Gone?
    && s.jobs[a.id].slot == a.slot && Answers(a.packet, s.jobs[a.id].msgid)
    && (distinct ==> s.jobs[a.id].life == a.life)
  }

  /** No query is answered twice. */
  ghost predicate OneReply(s: State) {
    forall a, b :: 0 <= a < b < |s.accepted| ==> s.accepted[a].id != s.accepted[b].id
  }

  /** No incarnation gets more replies than it made queries, and the ticks that a
      connection keeps are among those that are still to be answered. */
  ghost predicate Counted(s: State, free: Slots)
    requires |s.lives| == |s.conns|
  {
    && (forall i: int, life: nat :: AcceptCount(s.accepted, i, life) <= AskCount(s.jobs, i, life))
    && (forall i :: 0 <= i < |s.conns| && i !in SlotSet(free) ==>
          |s.conns[i].ticks| + AcceptCount(s.accepted, i, s.lives[i]) <= AskCount(s.jobs, i, s.lives[i]))
  }

  /** A used connection keeps the ticks of its outstanding queries. */
  ghost predicate Ticking(s: State, free: Slots)
    requires |s.lives| == |s.conns| && |s.jobs| == |s.places|
  {
    forall i, tick :: 0 <= i < |s.conns| && i !in SlotSet(free) ==>
      TickCount(s.conns[i].ticks, tick) == WaitCount(s.jobs, s.places, i, s.lives[i], tick, |s.jobs|)
  }

  /** Freed incarnations are over. */
  ghost predicate FreedOnce(s: State, free: Slots)
    requires |s.lives| == |s.conns|
  {
    && (forall k :: 0 <= k < |s.freed| ==>
          var (i, life) := s.freed[k];
          0 <= i < |s.conns| && life <= s.lives[i] && (life == s.lives[i] ==> i in SlotSet(free)))
    && (forall j, k :: 0 <= j < k < |s.freed| ==> s.freed[j] != s.freed[k])
  }

  ghost predicate History(s: State, free: Slots, distinct: bool) {
    && |s.lives| == |s.conns| && |s.jobs| == |s.places|
    && (forall k :: 0 <= k < |s.accepted| ==> AcceptOk(s, s.accepted[k], distinct)) && OneReply(s)
    && Counted(s, free) && FreedOnce(s, free)
    && (distinct ==> Ticking(s, free))
  }

  /** The pool, the connections, the tasks and their queues. */
  ghost predicate Core(s: State, free: Slots) {
    Pool(s, free) && Conns(s, free) && Jobs(s, free) && Queues(s)
  }

  /** What holds between any two steps; more if ticks were always distinct. */
  ghost predicate Inv(s: State, free: Slots, distinct: bool) {
    Core(s, free) && History(s, free, distinct)
  }
}
