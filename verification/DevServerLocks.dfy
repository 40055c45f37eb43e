/** The waiting rules of the development-server service. */
module DevServerLocks {
  import opened Common

  // A mutex per key is made of chained promises, and a semaphore hands its slot over to the next waiter.  Every
  // piece of work climbs through its resources in the order project key, server key, inspection slot, and
  // unwinds in reverse.

  datatype Key = ProjectKey(name: string) | ServerKey(name: string)

  datatype Resource = Lock(key: Key) | Slot

  /** What the service does under locks or slots. */
  datatype Work =
    | ListServers
    | InspectServer(server: string)
    | Mutate(project: string, server: string)
    | UpdateSettings(project: string)

  function Plan(work: Work): (plan: seq<Resource>)
    ensures |plan| <= 2
    ensures forall i, j :: 0 <= i < j < |plan| ==> Rank(plan[i]) < Rank(plan[j])
  {
    match work
    case ListServers => [Slot]
    case InspectServer(server) => [Lock(ServerKey(server)), Slot]
    case Mutate(project, server) => [Lock(ProjectKey(project)), Lock(ServerKey(server))]
    case UpdateSettings(project) => [Lock(ProjectKey(project))]
  }

  function Rank(r: Resource): nat {
    match r
    case Lock(ProjectKey(_)) => 1
    case Lock(ServerKey(_)) => 2
    case Slot => 3
  }

  /**
   One call of `runExclusive`.  `prev` is the tail it found; `released` says that its gate is open, and
   `settled` that its own tail promise has resolved.
   */
  datatype Ticket = Ticket(key: Key, owner: nat, prev: Option<nat>, released: bool, settled: bool)

  datatype Hold = HoldsLock(ticket: nat) | HoldsSlot

  /** `Waiting` asks for the last entry of `holds`; `Climbing` holds all of them. */
  datatype Mode = Climbing | Waiting | Unwinding | Done

  datatype Task = Task(work: Work, holds: seq<Hold>, mode: Mode)

  datatype Service = Service(
    capacity: nat,
    active: int,
    waiters: seq<nat>,
    tails: map<Key, nat>,
    tickets: seq<Ticket>,
    tasks: seq<Task>
  )

  datatype Event =
    | Arrive(work: Work)
    | Request(task: nat)
    | Enter(task: nat)
    | Finish(task: nat)
    | Release(task: nat)
    | Settle(ticket: nat)

  function Open(s: Service, ticket: nat): bool
    requires ticket < |s.tickets|
  {
    match s.tickets[ticket].prev
    case None => true
    case Some(p) => p < |s.tickets| && s.tickets[p].settled
  }

  function Top(t: Task): Hold
    requires t.holds != []
  {
    t.holds[|t.holds| - 1]
  }

  ghost predicate Enabled(s: Service, e: Event) {
    match e
    case Arrive(_) => true
    case Request(i) =>
      i < |s.tasks| && s.tasks[i].mode == Climbing && |s.tasks[i].holds| < |Plan(s.tasks[i].work)|
    case Enter(i) =>
      && i < |s.tasks| && s.tasks[i].mode == Waiting && s.tasks[i].holds != []
      && Top(s.tasks[i]).HoldsLock? && Top(s.tasks[i]).ticket < |s.tickets| && Open(s, Top(s.tasks[i]).ticket)
    // The action returns or throws; it may do so before it has taken all its resources.
    case Finish(i) => i < |s.tasks| && s.tasks[i].mode == Climbing
    case Release(i) =>
      && i < |s.tasks| && s.tasks[i].mode == Unwinding
      && (s.tasks[i].holds != [] && Top(s.tasks[i]).HoldsLock? ==> Top(s.tasks[i]).ticket < |s.tickets|)
    case Settle(t) => t < |s.tickets| && s.tickets[t].released && !s.tickets[t].settled && Open(s, t)
  }

  /** `runExclusive`: read the tail, put one's own in its place, then wait for the one that was read. */
  function TakeTicket(s: Service, i: nat, key: Key): Service
    requires i < |s.tasks|
  {
    var prev := if key in s.tails then Some(s.tails[key]) else None;
    var t := s.tasks[i];
    s.(tickets := s.tickets + [Ticket(key, i, prev, false, false)],
       tails := s.tails[key := |s.tickets|],
       tasks := s.tasks[i := t.(holds := t.holds + [HoldsLock(|s.tickets|)], mode := Waiting)])
  }

  /** The end of `runExclusive`: open the gate, and forget the tail if it is still one's own. */
  function ReturnTicket(s: Service, ticket: nat): Service
    requires ticket < |s.tickets|
  {
    var t := s.tickets[ticket];
    s.(tickets := s.tickets[ticket := t.(released := true)],
       tails := if t.key in s.tails && s.tails[t.key] == ticket then s.tails - {t.key} else s.tails)
  }

  function TakeSlot(s: Service, i: nat): Service
    requires i < |s.tasks|
  {
    var t := s.tasks[i].(holds := s.tasks[i].holds + [HoldsSlot]);
    if s.active >= s.capacity
    then s.(waiters := s.waiters + [i], tasks := s.tasks[i := t.(mode := Waiting)])
    else s.(active := s.active + 1, tasks := s.tasks[i := t])
  }

  /** The slot goes straight to the first waiter, without being counted down and up again. */
  function ReturnSlot(s: Service): Service {
    if s.waiters == [] then s.(active := s.active - 1)
    else
      var next := s.waiters[0];
      s.(waiters := s.waiters[1..],
         tasks := if next < |s.tasks| then s.tasks[next := s.tasks[next].(mode := Climbing)] else s.tasks)
  }

  function Pop(t: Task): Task
    requires t.holds != []
  {
    t.(holds := t.holds[..|t.holds| - 1])
  }

  ghost function Next(s: Service, e: Event): Service
    requires Enabled(s, e)
  {
    match e
    case Arrive(work) => s.(tasks := s.tasks + [Task(work, [], Climbing)])
    case Request(i) =>
      (match Plan(s.tasks[i].work)[|s.tasks[i].holds|]
       case Lock(key) => TakeTicket(s, i, key)
       case Slot => TakeSlot(s, i))
    case Enter(i) => s.(tasks := s.tasks[i := s.tasks[i].(mode := Climbing)])
    case Finish(i) => s.(tasks := s.tasks[i := s.tasks[i].(mode := Unwinding)])
    case Release(i) =>
      if s.tasks[i].holds == [] then s.(tasks := s.tasks[i := s.tasks[i].(mode := Done)])
      else
        var popped := s.(tasks := s.tasks[i := Pop(s.tasks[i])]);
        if Top(s.tasks[i]).HoldsSlot? then ReturnSlot(popped) else ReturnTicket(popped, Top(s.tasks[i]).ticket)
    case Settle(t) => s.(tickets := s.tickets[t := s.tickets[t].(settled := true)])
  }

  // ----- Invariants ----------------------------------------------------------------------------------

  ghost predicate OpenIn(tickets: seq<Ticket>, k: nat)
    requires k < |tickets|
  {
    match tickets[k].prev
    case None => true
    case Some(p) => p < |tickets| && tickets[p].settled
  }

  ghost predicate Queued(tickets: seq<Ticket>, a: int, b: int) {
    0 <= a < b < |tickets| && tickets[a].key == tickets[b].key
  }

  ghost predicate QueueInv(tickets: seq<Ticket>) {
    && (forall k, p :: 0 <= k < |tickets| && tickets[k].prev == Some(p) ==> Queued(tickets, p, k))
    // A ticket queues up behind every earlier one that has not been given back.
    && (forall a, b :: Queued(tickets, a, b) && !tickets[a].released ==>
          tickets[b].prev.Some? && a <= tickets[b].prev.value)
    && (forall a, b :: Queued(tickets, a, b) && tickets[b].settled ==> tickets[a].released)
    && (forall k :: 0 <= k < |tickets| && tickets[k].settled ==> tickets[k].released)
  }

  /** The tail of a key is its newest ticket that has not been given back. */
  ghost predicate TailsInv(tickets: seq<Ticket>, tails: map<Key, nat>) {
    && (forall k :: 0 <= k < |tickets| && !tickets[k].released ==>
          tickets[k].key in tails && k <= tails[tickets[k].key])
    && (forall key :: key in tails ==>
          tails[key] < |tickets| && tickets[tails[key]].key == key && !tickets[tails[key]].released)
  }

  ghost predicate TableInv(tickets: seq<Ticket>, tails: map<Key, nat>) {
    QueueInv(tickets) && TailsInv(tickets, tails)
  }

  /** True if the task is past the wait for its j-th resource. */
  predicate Entered(t: Task, j: nat) {
    j < |t.holds| && !(t.mode == Waiting && j == |t.holds| - 1)
  }

  ghost predicate HoldFine(tickets: seq<Ticket>, i: nat, t: Task, j: nat)
    requires j < |t.holds| <= |Plan(t.work)|
  {
    match t.holds[j]
    case HoldsSlot => Plan(t.work)[j] == Slot
    case HoldsLock(k) =>
      && k < |tickets| && Plan(t.work)[j] == Lock(tickets[k].key)
      && tickets[k].owner == i && !tickets[k].released
      && (Entered(t, j) ==> OpenIn(tickets, k))
  }

  ghost predicate TaskFine(tickets: seq<Ticket>, i: nat, t: Task) {
    && |t.holds| <= |Plan(t.work)|
    && (forall j :: 0 <= j < |t.holds| ==> HoldFine(tickets, i, t, j))
    && (t.mode == Waiting ==> t.holds != [])
    && (t.mode == Done ==> t.holds == [])
  }

  ghost predicate Owned(tasks: seq<Task>, tickets: seq<Ticket>, k: nat)
    requires k < |tickets|
  {
    !tickets[k].released ==> tickets[k].owner < |tasks| && HoldsLock(k) in tasks[tickets[k].owner].holds
  }

  ghost predicate LinkInv(tasks: seq<Task>, tickets: seq<Ticket>) {
    && (forall i :: 0 <= i < |tasks| ==> TaskFine(tickets, i, tasks[i]))
    && (forall k :: 0 <= k < |tickets| ==> Owned(tasks, tickets, k))
  }

  predicate InSlot(t: Task) {
    t.holds != [] && Top(t) == HoldsSlot && t.mode != Waiting
  }

  predicate WaitsForSlot(t: Task) {
    t.holds != [] && Top(t) == HoldsSlot && t.mode == Waiting
  }

  ghost const SlotUse: Task -> nat := t => if InSlot(t) then 1 else 0

  ghost predicate SlotInv(capacity: nat, active: int, waiters: seq<nat>, tasks: seq<Task>) {
    && active == Sum(tasks, SlotUse)
    && active <= capacity
    && (waiters != [] ==> active == capacity)
    && Distinct(waiters)
    && (forall i: nat :: i in waiters <==> i < |tasks| && WaitsForSlot(tasks[i]))
  }

  ghost predicate Inv(s: Service) {
    && s.capacity >= 1
    && TableInv(s.tickets, s.tails)
    && LinkInv(s.tasks, s.tickets)
    && SlotInv(s.capacity, s.active, s.waiters, s.tasks)
  }

  // ----- Steps keep the invariants -------------------------------------------------------------------

  lemma TakeTicketKeepsTable(tickets: seq<Ticket>, tails: map<Key, nat>, key: Key, owner: nat)
    requires TableInv(tickets, tails)
    ensures var prev := if key in tails then Some(tails[key]) else None;
            TableInv(tickets + [Ticket(key, owner, prev, false, false)], tails[key := |tickets|])
  {
    var prev := if key in tails then Some(tails[key]) else None;
    var tickets' := tickets + [Ticket(key, owner, prev, false, false)];
    forall a, b | b < |tickets| ensures Queued(tickets', a, b) == Queued(tickets, a, b) {
    }
    assert QueueInv(tickets');
    assert TailsInv(tickets', tails[key := |tickets|]);
  }

  lemma ReturnTicketKeepsTable(tickets: seq<Ticket>, tails: map<Key, nat>, k: nat)
    requires TableInv(tickets, tails)
    requires k < |tickets| && !tickets[k].released && OpenIn(tickets, k)
    ensures var key := tickets[k].key;
            TableInv(tickets[k := tickets[k].(released := true)],
                     if key in tails && tails[key] == k then tails - {key} else tails)
  {
    var key := tickets[k].key;
    var tickets' := tickets[k := tickets[k].(released := true)];
    forall a, b ensures Queued(tickets', a, b) == Queued(tickets, a, b) {
    }
    assert QueueInv(tickets');
    forall a | 0 <= a < k && tickets[a].key == key ensures tickets[a].released {
      EarlierReturned(tickets, a, k);
    }
    assert TailsInv(tickets', if key in tails && tails[key] == k then tails - {key} else tails);
  }

  /** Whoever is let in comes after everybody before it has left. */
  lemma EarlierReturned(tickets: seq<Ticket>, a: nat, k: nat)
    requires QueueInv(tickets) && Queued(tickets, a, k) && OpenIn(tickets, k)
    ensures tickets[a].released
  {
    if tickets[k].prev.Some? && a < tickets[k].prev.value {
      assert Queued(tickets, tickets[k].prev.value, k);
      assert Queued(tickets, a, tickets[k].prev.value);
    }
  }

  lemma SettleKeepsTable(tickets: seq<Ticket>, tails: map<Key, nat>, k: nat)
    requires TableInv(tickets, tails)
    requires k < |tickets| && tickets[k].released && OpenIn(tickets, k)
    ensures TableInv(tickets[k := tickets[k].(settled := true)], tails)
  {
    var tickets' := tickets[k := tickets[k].(settled := true)];
    forall a, b ensures Queued(tickets', a, b) == Queued(tickets, a, b) {
    }
    forall a: nat | Queued(tickets, a, k) ensures tickets[a].released {
      EarlierReturned(tickets, a, k);
    }
    assert QueueInv(tickets');
  }

  /** Tickets only ever advance: new ones are added, and old ones become released and settled. */
  ghost predicate Advances(tickets: seq<Ticket>, tickets': seq<Ticket>) {
    && |tickets| <= |tickets'|
    && forall k :: 0 <= k < |tickets| ==>
         && tickets'[k].(released := false, settled := false) == tickets[k].(released := false, settled := false)
         && (tickets[k].settled ==> tickets'[k].settled)
  }

  lemma TaskStaysFine(tickets: seq<Ticket>, tickets': seq<Ticket>, i: nat, t: Task)
    requires TaskFine(tickets, i, t) && Advances(tickets, tickets')
    requires forall k: nat :: HoldsLock(k) in t.holds && k < |tickets| ==> tickets'[k].released == tickets[k].released
    ensures TaskFine(tickets', i, t)
  {
    forall j | 0 <= j < |t.holds| ensures HoldFine(tickets', i, t, j) {
      assert HoldFine(tickets, i, t, j);
      assert t.holds[j] in t.holds;
    }
  }

  lemma ModeKeepsLink(tasks: seq<Task>, tickets: seq<Ticket>, i: nat, mode: Mode)
    requires LinkInv(tasks, tickets) && i < |tasks|
    requires mode != Waiting && (mode == Done ==> tasks[i].holds == [])
    requires tasks[i].mode == Waiting && tasks[i].holds != [] && Top(tasks[i]).HoldsLock? ==>
               Top(tasks[i]).ticket < |tickets| && OpenIn(tickets, Top(tasks[i]).ticket)
    ensures LinkInv(tasks[i := tasks[i].(mode := mode)], tickets)
  {
    var t, t' := tasks[i], tasks[i].(mode := mode);
    forall j | 0 <= j < |t.holds| ensures HoldFine(tickets, i, t', j) {
      assert HoldFine(tickets, i, t, j);
    }
    var tasks' := tasks[i := t'];
    forall k | 0 <= k < |tickets| ensures Owned(tasks', tickets, k) {
      assert Owned(tasks, tickets, k);
    }
  }

  /** The slot is the last thing a task takes. */
  lemma SlotIsLast(tickets: seq<Ticket>, i: nat, t: Task, j: nat)
    requires TaskFine(tickets, i, t) && j < |t.holds| && t.holds[j] == HoldsSlot
    ensures j == |t.holds| - 1 && |t.holds| == |Plan(t.work)|
  {
    assert HoldFine(tickets, i, t, j);
    assert j + 1 < |Plan(t.work)| ==> Rank(Plan(t.work)[j]) < Rank(Plan(t.work)[j + 1]);
  }

  /** A step of one task that leaves its relation to the slot as it was. */
  lemma SlotUnaffected(capacity: nat, active: int, waiters: seq<nat>, tasks: seq<Task>, i: nat, t: Task)
    requires SlotInv(capacity, active, waiters, tasks) && i < |tasks|
    requires InSlot(t) == InSlot(tasks[i]) && WaitsForSlot(t) == WaitsForSlot(tasks[i])
    ensures SlotInv(capacity, active, waiters, tasks[i := t])
  {
    SumUpdate(tasks, i, t, SlotUse);
  }

  lemma ArriveKeepsInv(s: Service, work: Work)
    requires Inv(s)
    ensures Inv(Next(s, Arrive(work)))
  {
    var t := Task(work, [], Climbing);
    SumAppend(s.tasks, t, SlotUse);
    var tasks' := s.tasks + [t];
    forall k | 0 <= k < |s.tickets| ensures Owned(tasks', s.tickets, k) {
      assert Owned(s.tasks, s.tickets, k);
    }
  }

  lemma TakeTicketKeepsLink(tasks: seq<Task>, tickets: seq<Ticket>, i: nat, k: Ticket)
    requires LinkInv(tasks, tickets) && i < |tasks| && tasks[i].mode == Climbing
    requires |tasks[i].holds| < |Plan(tasks[i].work)| && Plan(tasks[i].work)[|tasks[i].holds|] == Lock(k.key)
    requires k.owner == i && !k.released
    ensures var t := tasks[i];
            LinkInv(tasks[i := t.(holds := t.holds + [HoldsLock(|tickets|)], mode := Waiting)], tickets + [k])
  {
    var t := tasks[i];
    var t' := t.(holds := t.holds + [HoldsLock(|tickets|)], mode := Waiting);
    var tickets', tasks' := tickets + [k], tasks[i := t'];
    forall m | 0 <= m < |tasks| ensures TaskFine(tickets', m, tasks[m]) {
      TaskStaysFine(tickets, tickets', m, tasks[m]);
    }
    forall j | 0 <= j < |t'.holds| ensures HoldFine(tickets', i, t', j) {
      if j < |t.holds| {
        assert HoldFine(tickets', i, t, j);
      }
    }
    forall m | 0 <= m < |tickets'| ensures Owned(tasks', tickets', m) {
      if m < |tickets| {
        assert Owned(tasks, tickets, m);
      } else {
        assert t'.holds[|t.holds|] == HoldsLock(m);
      }
    }
  }

  lemma TakeTicketKeepsInv(s: Service, i: nat, key: Key)
    requires Inv(s) && Enabled(s, Request(i))
    requires Plan(s.tasks[i].work)[|s.tasks[i].holds|] == Lock(key)
    ensures Inv(TakeTicket(s, i, key))
  {
    var s' := TakeTicket(s, i, key);
    TakeTicketKeepsTable(s.tickets, s.tails, key, i);
    TakeTicketKeepsLink(s.tasks, s.tickets, i, s'.tickets[|s.tickets|]);
    NotYetInSlot(s.tickets, i, s.tasks[i]);
    SlotUnaffected(s.capacity, s.active, s.waiters, s.tasks, i, s'.tasks[i]);
  }

  lemma NotYetInSlot(tickets: seq<Ticket>, i: nat, t: Task)
    requires TaskFine(tickets, i, t) && |t.holds| < |Plan(t.work)|
    ensures !InSlot(t) && !WaitsForSlot(t)
  {
    if t.holds != [] && Top(t) == HoldsSlot {
      SlotIsLast(tickets, i, t, |t.holds| - 1);
    }
  }

  lemma TakeSlotKeepsLink(tasks: seq<Task>, tickets: seq<Ticket>, i: nat, mode: Mode)
    requires LinkInv(tasks, tickets) && i < |tasks| && tasks[i].mode == Climbing && mode in {Climbing, Waiting}
    requires |tasks[i].holds| < |Plan(tasks[i].work)| && Plan(tasks[i].work)[|tasks[i].holds|] == Slot
    ensures LinkInv(tasks[i := tasks[i].(holds := tasks[i].holds + [HoldsSlot], mode := mode)], tickets)
  {
    var t := tasks[i];
    var t' := t.(holds := t.holds + [HoldsSlot], mode := mode);
    forall j | 0 <= j < |t'.holds| ensures HoldFine(tickets, i, t', j) {
      if j < |t.holds| {
        assert HoldFine(tickets, i, t, j);
      }
    }
    var tasks' := tasks[i := t'];
    forall m | 0 <= m < |tickets| ensures Owned(tasks', tickets, m) {
      assert Owned(tasks, tickets, m);
    }
  }

  lemma TakeSlotKeepsInv(s: Service, i: nat)
    requires Inv(s) && Enabled(s, Request(i))
    requires Plan(s.tasks[i].work)[|s.tasks[i].holds|] == Slot
    ensures Inv(TakeSlot(s, i))
  {
    var s' := TakeSlot(s, i);
    var t' := s'.tasks[i];
    NotYetInSlot(s.tickets, i, s.tasks[i]);
    TakeSlotKeepsLink(s.tasks, s.tickets, i, t'.mode);
    if s.active >= s.capacity {
      QueueingKeepsSlots(s.capacity, s.active, s.waiters, s.tasks, i, t');
    } else {
      SumUpdate(s.tasks, i, t', SlotUse);
      assert SlotInv(s'.capacity, s'.active, s'.waiters, s'.tasks);
    }
  }

  lemma QueueingKeepsSlots(capacity: nat, active: int, waiters: seq<nat>, tasks: seq<Task>, i: nat, t: Task)
    requires SlotInv(capacity, active, waiters, tasks) && active >= capacity
    requires i < |tasks| && !InSlot(tasks[i]) && !WaitsForSlot(tasks[i]) && WaitsForSlot(t)
    ensures SlotInv(capacity, active, waiters + [i], tasks[i := t])
  {
    SumUpdate(tasks, i, t, SlotUse);
    DistinctConcat(waiters, [i]);
  }

  lemma EnterKeepsInv(s: Service, i: nat)
    requires Inv(s) && Enabled(s, Enter(i))
    ensures Inv(Next(s, Enter(i)))
  {
    ModeKeepsLink(s.tasks, s.tickets, i, Climbing);
    SlotUnaffected(s.capacity, s.active, s.waiters, s.tasks, i, s.tasks[i].(mode := Climbing));
  }

  lemma FinishKeepsInv(s: Service, i: nat)
    requires Inv(s) && Enabled(s, Finish(i))
    ensures Inv(Next(s, Finish(i)))
  {
    ModeKeepsLink(s.tasks, s.tickets, i, Unwinding);
    SlotUnaffected(s.capacity, s.active, s.waiters, s.tasks, i, s.tasks[i].(mode := Unwinding));
  }

  lemma PoppedFine(tickets: seq<Ticket>, i: nat, t: Task)
    requires TaskFine(tickets, i, t) && t.holds != [] && t.mode == Unwinding
    ensures TaskFine(tickets, i, Pop(t)) && !InSlot(Pop(t)) && !WaitsForSlot(Pop(t))
    ensures Top(t).HoldsLock? ==> Top(t).ticket < |tickets| && !tickets[Top(t).ticket].released
                                  && OpenIn(tickets, Top(t).ticket) && Top(t) !in Pop(t).holds
  {
    var n := |t.holds| - 1;
    assert HoldFine(tickets, i, t, n);
    forall j | 0 <= j < n
      ensures HoldFine(tickets, i, Pop(t), j) && t.holds[j] != t.holds[n] && t.holds[j] != HoldsSlot
    {
      assert HoldFine(tickets, i, t, j);
      assert Rank(Plan(t.work)[j]) < Rank(Plan(t.work)[n]);
      if t.holds[j] == HoldsSlot {
        SlotIsLast(tickets, i, t, j);
      }
    }
  }

  lemma PopKeepsOwned(tasks: seq<Task>, tickets: seq<Ticket>, i: nat, m: nat)
    requires i < |tasks| && tasks[i].holds != [] && m < |tickets| && Owned(tasks, tickets, m)
    requires Top(tasks[i]) != HoldsLock(m)
    ensures Owned(tasks[i := Pop(tasks[i])], tickets, m)
  {
    assert tasks[i].holds == Pop(tasks[i]).holds + [Top(tasks[i])];
  }

  lemma ReturnTicketKeepsLink(tasks: seq<Task>, tickets: seq<Ticket>, i: nat, k: nat)
    requires LinkInv(tasks, tickets) && i < |tasks| && tasks[i].mode == Unwinding
    requires tasks[i].holds != [] && Top(tasks[i]) == HoldsLock(k) && k < |tickets|
    ensures LinkInv(tasks[i := Pop(tasks[i])], tickets[k := tickets[k].(released := true)])
  {
    var t := tasks[i];
    var tickets', tasks' := tickets[k := tickets[k].(released := true)], tasks[i := Pop(t)];
    PoppedFine(tickets, i, t);
    forall m | 0 <= m < |tasks| ensures TaskFine(tickets', m, tasks'[m]) {
      if m != i {
        OwnersDiffer(tasks, tickets, i, m, k);
      }
      TaskStaysFine(tickets, tickets', m, tasks'[m]);
    }
    forall m | 0 <= m < |tickets'| ensures Owned(tasks', tickets', m) {
      assert Owned(tasks, tickets, m);
      if m != k {
        PopKeepsOwned(tasks, tickets, i, m);
      }
    }
  }

  lemma OwnersDiffer(tasks: seq<Task>, tickets: seq<Ticket>, i: nat, m: nat, k: nat)
    requires LinkInv(tasks, tickets) && i < |tasks| && m < |tasks| && i != m
    requires tasks[i].holds != [] && Top(tasks[i]) == HoldsLock(k)
    ensures HoldsLock(k) !in tasks[m].holds
  {
    assert HoldFine(tickets, i, tasks[i], |tasks[i].holds| - 1);
    forall j | 0 <= j < |tasks[m].holds| ensures tasks[m].holds[j] != HoldsLock(k) {
      assert HoldFine(tickets, m, tasks[m], j);
    }
  }

  lemma ReturnLockKeepsInv(s: Service, i: nat)
    requires Inv(s) && Enabled(s, Release(i)) && s.tasks[i].holds != [] && Top(s.tasks[i]).HoldsLock?
    ensures Inv(Next(s, Release(i)))
  {
    var t := s.tasks[i];
    var k := Top(t).ticket;
    PoppedFine(s.tickets, i, t);
    ReturnTicketKeepsTable(s.tickets, s.tails, k);
    ReturnTicketKeepsLink(s.tasks, s.tickets, i, k);
    SlotUnaffected(s.capacity, s.active, s.waiters, s.tasks, i, Pop(t));
  }

  lemma PopSlotKeepsLink(tasks: seq<Task>, tickets: seq<Ticket>, i: nat)
    requires LinkInv(tasks, tickets) && i < |tasks| && tasks[i].mode == Unwinding
    requires tasks[i].holds != [] && Top(tasks[i]) == HoldsSlot
    ensures LinkInv(tasks[i := Pop(tasks[i])], tickets)
  {
    PoppedFine(tickets, i, tasks[i]);
    var tasks' := tasks[i := Pop(tasks[i])];
    forall m | 0 <= m < |tickets| ensures Owned(tasks', tickets, m) {
      PopKeepsOwned(tasks, tickets, i, m);
    }
  }

  /** Handing a slot to the first waiter keeps the count as it is. */
  lemma HandOverKeepsSlots(capacity: nat, active: int, waiters: seq<nat>, tasks: seq<Task>, i: nat, t: Task)
    requires SlotInv(capacity, active, waiters, tasks) && i < |tasks| && InSlot(tasks[i])
    requires !InSlot(t) && !WaitsForSlot(t) && waiters != []
    ensures waiters[0] < |tasks| && WaitsForSlot(tasks[waiters[0]]) && waiters[0] != i
    ensures var next := waiters[0];
            SlotInv(capacity, active, waiters[1..], tasks[i := t][next := tasks[next].(mode := Climbing)])
  {
    var next := waiters[0];
    assert next in waiters;
    var popped := tasks[i := t];
    var woken := tasks[next].(mode := Climbing);
    SumUpdate(tasks, i, t, SlotUse);
    SumUpdate(popped, next, woken, SlotUse);
    var rest := waiters[1..];
    assert waiters == [next] + rest;
    DistinctParts([next], rest);
    assert next in [next];
    forall j: nat ensures j in rest <==> j in waiters && j != next {
    }
  }

  lemma ReturnSlotKeepsInv(s: Service, i: nat)
    requires Inv(s) && Enabled(s, Release(i)) && s.tasks[i].holds != [] && Top(s.tasks[i]).HoldsSlot?
    ensures Inv(Next(s, Release(i)))
  {
    var t := s.tasks[i];
    PoppedFine(s.tickets, i, t);
    PopSlotKeepsLink(s.tasks, s.tickets, i);
    var popped := s.tasks[i := Pop(t)];
    if s.waiters == [] {
      SumUpdate(s.tasks, i, Pop(t), SlotUse);
      assert SlotInv(s.capacity, s.active - 1, s.waiters, popped);
    } else {
      HandOverKeepsSlots(s.capacity, s.active, s.waiters, s.tasks, i, Pop(t));
      ModeKeepsLink(popped, s.tickets, s.waiters[0], Climbing);
    }
  }

  lemma DoneKeepsInv(s: Service, i: nat)
    requires Inv(s) && Enabled(s, Release(i)) && s.tasks[i].holds == []
    ensures Inv(Next(s, Release(i)))
  {
    ModeKeepsLink(s.tasks, s.tickets, i, Done);
    SlotUnaffected(s.capacity, s.active, s.waiters, s.tasks, i, s.tasks[i].(mode := Done));
  }

  lemma SettleKeepsInv(s: Service, k: nat)
    requires Inv(s) && Enabled(s, Settle(k))
    ensures Inv(Next(s, Settle(k)))
  {
    var s' := Next(s, Settle(k));
    SettleKeepsTable(s.tickets, s.tails, k);
    forall m | 0 <= m < |s.tasks| ensures TaskFine(s'.tickets, m, s'.tasks[m]) {
      TaskStaysFine(s.tickets, s'.tickets, m, s.tasks[m]);
    }
    forall m | 0 <= m < |s'.tickets| ensures Owned(s'.tasks, s'.tickets, m) {
      assert Owned(s.tasks, s.tickets, m);
    }
  }

  lemma StepKeepsInv(s: Service, e: Event)
    requires Inv(s) && Enabled(s, e)
    ensures Inv(Next(s, e))
  {
    match e
    case Arrive(work) => ArriveKeepsInv(s, work);
    case Request(i) =>
      match Plan(s.tasks[i].work)[|s.tasks[i].holds|] {
        case Lock(key) => TakeTicketKeepsInv(s, i, key);
        case Slot => TakeSlotKeepsInv(s, i);
      }
    case Enter(i) => EnterKeepsInv(s, i);
    case Finish(i) => FinishKeepsInv(s, i);
    case Release(i) =>
      if s.tasks[i].holds == [] {
        DoneKeepsInv(s, i);
      } else if Top(s.tasks[i]).HoldsSlot? {
        ReturnSlotKeepsInv(s, i);
      } else {
        ReturnLockKeepsInv(s, i);
      }
    case Settle(k) => SettleKeepsInv(s, k);
  }

  // ----- Runs ------------------------------------------------------------------------------------------

  function Started(capacity: nat): Service {
    Service(capacity, 0, [], map[], [], [])
  }

  /** The service after a run from `s`, if every step was possible. */
  ghost function After(s: Service, events: seq<Event>): Option<Service>
    decreases |events|
  {
    if events == [] then Some(s)
    else if Enabled(s, events[0]) then After(Next(s, events[0]), events[1..])
    else None
  }

  /** The service refuses to start with an inspect concurrency outside 1 to 32. */
  ghost predicate Reached(s: Service) {
    exists capacity: nat, events :: 1 <= capacity <= 32 && After(Started(capacity), events) == Some(s)
  }

  lemma {:induction false} RunKeepsInv(s: Service, events: seq<Event>)
    requires Inv(s) && After(s, events).Some?
    ensures Inv(After(s, events).value)
    decreases |events|
  {
    if events != [] {
      StepKeepsInv(s, events[0]);
      RunKeepsInv(Next(s, events[0]), events[1..]);
    }
  }

  lemma ReachedIsInv(s: Service)
    requires Reached(s)
    ensures Inv(s)
  {
    var capacity: nat, events :| 1 <= capacity <= 32 && After(Started(capacity), events) == Some(s);
    RunKeepsInv(Started(capacity), events);
  }

  // ----- Exclusion --------------------------------------------------------------------------------------

  ghost predicate UsesLock(s: Service, i: nat, j: nat, key: Key) {
    && i < |s.tasks| && j < |s.tasks[i].holds| && s.tasks[i].holds[j].HoldsLock?
    && s.tasks[i].holds[j].ticket < |s.tickets| && s.tickets[s.tasks[i].holds[j].ticket].key == key
  }

  /** Task i runs inside `runExclusive(key, ...)`. */
  ghost predicate Inside(s: Service, i: nat, key: Key) {
    exists j: nat :: UsesLock(s, i, j, key) && Entered(s.tasks[i], j)
  }

  /** Task i runs inside `runExclusive(key, ...)` or waits to. */
  ghost predicate HoldsOrAwaits(s: Service, i: nat, key: Key) {
    exists j: nat :: UsesLock(s, i, j, key)
  }

  lemma MutualExclusion(s: Service, key: Key, a: nat, b: nat)
    requires Reached(s) && Inside(s, a, key) && Inside(s, b, key)
    ensures a == b
  {
    ReachedIsInv(s);
    var j: nat :| UsesLock(s, a, j, key) && Entered(s.tasks[a], j);
    var j': nat :| UsesLock(s, b, j', key) && Entered(s.tasks[b], j');
    OneTicketInside(s, key, a, j, b, j');
    assert HoldFine(s.tickets, a, s.tasks[a], j) && HoldFine(s.tickets, b, s.tasks[b], j');
  }

  /** The task has all its locks and slots, and does its work. */
  ghost predicate AtWork(s: Service, i: nat) {
    i < |s.tasks| && s.tasks[i].mode == Climbing && |s.tasks[i].holds| == |Plan(s.tasks[i].work)|
  }

  /** Starting and stopping a server, and changing the settings, change the project's settings. */
  ghost predicate ChangesProject(work: Work, project: string) {
    (work.Mutate? && work.project == project) || work == UpdateSettings(project)
  }

  /** Inspecting, starting and stopping a server write down its session. */
  ghost predicate TouchesServer(work: Work, server: string) {
    work == InspectServer(server) || (work.Mutate? && work.server == server)
  }

  lemma PlansExactly(work: Work, project: string, server: string)
    ensures ChangesProject(work, project) <==> Lock(ProjectKey(project)) in Plan(work)
    ensures TouchesServer(work, server) <==> Lock(ServerKey(server)) in Plan(work)
    ensures work.ListServers? || work.InspectServer? <==> Slot in Plan(work)
  {
    assert forall j :: 0 <= j < |Plan(work)| ==> Plan(work)[j] in Plan(work);
    match work
    case ListServers => assert Plan(work)[0] == Slot;
    case InspectServer(s) => assert Plan(work)[0] == Lock(ServerKey(s)) && Plan(work)[1] == Slot;
    case Mutate(p, s) => assert Plan(work)[0] == Lock(ProjectKey(p)) && Plan(work)[1] == Lock(ServerKey(s));
    case UpdateSettings(p) => assert Plan(work)[0] == Lock(ProjectKey(p));
  }

  lemma AtWorkIsInside(s: Service, i: nat, key: Key)
    requires Inv(s) && AtWork(s, i) && Lock(key) in Plan(s.tasks[i].work)
    ensures Inside(s, i, key)
  {
    var t := s.tasks[i];
    var j: nat :| j < |Plan(t.work)| && Plan(t.work)[j] == Lock(key);
    assert TaskFine(s.tickets, i, t) && HoldFine(s.tickets, i, t, j);
    assert UsesLock(s, i, j, key) && Entered(t, j);
  }

  /** Two tasks at work never change one project, and never touch one server, at the same time. */
  lemma WorkIsExclusive(s: Service, a: nat, b: nat, project: string, server: string)
    requires Reached(s) && AtWork(s, a) && AtWork(s, b) && a != b
    ensures !(ChangesProject(s.tasks[a].work, project) && ChangesProject(s.tasks[b].work, project))
    ensures !(TouchesServer(s.tasks[a].work, server) && TouchesServer(s.tasks[b].work, server))
  {
    hide Plan, ChangesProject, TouchesServer, Inside;
    ReachedIsInv(s);
    PlansExactly(s.tasks[a].work, project, server);
    PlansExactly(s.tasks[b].work, project, server);
    if ChangesProject(s.tasks[a].work, project) && ChangesProject(s.tasks[b].work, project) {
      AtWorkIsInside(s, a, ProjectKey(project));
      AtWorkIsInside(s, b, ProjectKey(project));
      MutualExclusion(s, ProjectKey(project), a, b);
    }
    if TouchesServer(s.tasks[a].work, server) && TouchesServer(s.tasks[b].work, server) {
      AtWorkIsInside(s, a, ServerKey(server));
      AtWorkIsInside(s, b, ServerKey(server));
      MutualExclusion(s, ServerKey(server), a, b);
    }
  }

  lemma OneTicketInside(s: Service, key: Key, a: nat, j: nat, b: nat, j': nat)
    requires Inv(s)
    requires UsesLock(s, a, j, key) && Entered(s.tasks[a], j)
    requires UsesLock(s, b, j', key) && Entered(s.tasks[b], j')
    ensures s.tasks[a].holds[j] == s.tasks[b].holds[j']
  {
    assert HoldFine(s.tickets, a, s.tasks[a], j) && HoldFine(s.tickets, b, s.tasks[b], j');
    var k, k' := s.tasks[a].holds[j].ticket, s.tasks[b].holds[j'].ticket;
    if k < k' {
      EarlierReturned(s.tickets, k, k');
    } else if k' < k {
      EarlierReturned(s.tickets, k', k);
    }
  }

  /** A key stays in the table of tails exactly as long as somebody holds or awaits it. */
  lemma TailExactlyWhileInUse(s: Service, key: Key)
    requires Reached(s)
    ensures key in s.tails <==> exists i: nat :: HoldsOrAwaits(s, i, key)
  {
    ReachedIsInv(s);
    if key in s.tails {
      var k := s.tails[key];
      assert Owned(s.tasks, s.tickets, k);
      var i := s.tickets[k].owner;
      var j :| 0 <= j < |s.tasks[i].holds| && s.tasks[i].holds[j] == HoldsLock(k);
      assert UsesLock(s, i, j, key);
      assert HoldsOrAwaits(s, i, key);
    }
    if i: nat :| HoldsOrAwaits(s, i, key) {
      var j: nat :| UsesLock(s, i, j, key);
      assert HoldFine(s.tickets, i, s.tasks[i], j);
    }
  }

  /** Calls of `runExclusive` for one key are let in in the order in which they were made. */
  lemma FirstComeFirstServed(s: Service, key: Key, first: nat, i: nat, j: nat)
    requires Reached(s) && UsesLock(s, i, j, key) && Entered(s.tasks[i], j)
    requires first < s.tasks[i].holds[j].ticket && s.tickets[first].key == key
    ensures s.tickets[first].released
  {
    ReachedIsInv(s);
    assert HoldFine(s.tickets, i, s.tasks[i], j);
    EarlierReturned(s.tickets, first, s.tasks[i].holds[j].ticket);
  }

  /** Never more actions in a slot than there are slots; and nobody waits while one is free. */
  lemma SlotsAreSharedOut(s: Service)
    requires Reached(s)
    ensures Sum(s.tasks, SlotUse) <= s.capacity
    ensures (exists i :: 0 <= i < |s.tasks| && WaitsForSlot(s.tasks[i])) ==> Sum(s.tasks, SlotUse) == s.capacity
  {
    ReachedIsInv(s);
    if i :| 0 <= i < |s.tasks| && WaitsForSlot(s.tasks[i]) {
      assert i in s.waiters;
    }
  }

  // ----- Progress ---------------------------------------------------------------------------------------

  /** The ticket that a blocked ticket is, in the end, waiting for. */
  lemma {:induction false} Blocker(s: Service, k: nat) returns (m: nat)
    requires TableInv(s.tickets, s.tails) && k < |s.tickets| && !s.tickets[k].settled
    ensures m <= k && !s.tickets[m].settled && OpenIn(s.tickets, m) && s.tickets[m].key == s.tickets[k].key
    decreases k
  {
    if OpenIn(s.tickets, k) {
      m := k;
    } else {
      assert Queued(s.tickets, s.tickets[k].prev.value, k);
      m := Blocker(s, s.tickets[k].prev.value);
    }
  }

  /** Whoever is in an inspection slot can go on. */
  lemma SlotHolderCanStep(s: Service, i: nat) returns (e: Event)
    requires Inv(s) && i < |s.tasks| && InSlot(s.tasks[i])
    ensures !e.Arrive? && Enabled(s, e)
  {
    var t := s.tasks[i];
    e := if t.mode == Climbing then Finish(i) else Release(i);
  }

  /** How far a task is from the top of the resource order; only a waiting task has any way to go. */
  ghost function Distance(t: Task): nat {
    if t.mode == Waiting && 0 < |t.holds| <= |Plan(t.work)| then 4 - Rank(Plan(t.work)[|t.holds| - 1]) else 0
  }

  ghost predicate AwaitsLock(s: Service, i: nat) {
    && i < |s.tasks| && s.tasks[i].mode == Waiting && s.tasks[i].holds != [] && Top(s.tasks[i]).HoldsLock?
    && |s.tasks[i].holds| <= |Plan(s.tasks[i].work)|
    && HoldFine(s.tickets, i, s.tasks[i], |s.tasks[i].holds| - 1)
  }

  /** The owner of the lock that a task awaits is further up. */
  lemma OwnerIsHigher(s: Service, i: nat, m: nat, o: nat, j: nat)
    requires Inv(s) && AwaitsLock(s, i) && m < |s.tickets| && s.tickets[m].key == s.tickets[Top(s.tasks[i]).ticket].key
    requires o < |s.tasks| && j < |s.tasks[o].holds| <= |Plan(s.tasks[o].work)| && s.tasks[o].holds[j] == HoldsLock(m)
    requires HoldFine(s.tickets, o, s.tasks[o], j) && Entered(s.tasks[o], j)
    ensures Distance(s.tasks[o]) < Distance(s.tasks[i])
  {
    hide Inv, Plan;
    WaitsHigher(s, o, j);
  }

  /** Behind a lock there is a step to take, or an owner further up. */
  lemma LockMovesOrOwnerCan(s: Service, i: nat) returns (e: Event, o: Option<nat>)
    requires Inv(s) && AwaitsLock(s, i)
    ensures o.None? ==> !e.Arrive? && Enabled(s, e)
    ensures o.Some? ==>
      o.value < |s.tasks| && s.tasks[o.value].mode != Done && Distance(s.tasks[o.value]) < Distance(s.tasks[i])
  {
    hide Plan, Distance;
    var m := Blocker(s, Top(s.tasks[i]).ticket);
    if s.tickets[m].released {
      e, o := Settle(m), None;
    } else {
      var owner, j := OwnerOf(s, m);
      if Entered(s.tasks[owner], j) {
        OwnerIsHigher(s, i, m, owner, j);
        e, o := Settle(m), Some(owner);
      } else {
        e, o := Enter(owner), None;
      }
    }
  }

  /** No task is stuck: it can step itself, or somebody it waits for, directly or not, can. */
  lemma {:induction false} CanStep(s: Service, i: nat) returns (e: Event)
    requires Inv(s) && i < |s.tasks| && s.tasks[i].mode != Done
    ensures !e.Arrive? && Enabled(s, e)
    decreases Distance(s.tasks[i])
  {
    hide Distance;
    var t := s.tasks[i];
    assert TaskFine(s.tickets, i, t);
    assert t.holds != [] ==> HoldFine(s.tickets, i, t, |t.holds| - 1);
    if t.mode == Climbing {
      e := Finish(i);
    } else if t.mode == Unwinding {
      e := Release(i);
    } else if Top(t) == HoldsSlot {
      assert i in s.waiters;
      var h := PositiveTerm(s.tasks, SlotUse);
      e := SlotHolderCanStep(s, h);
    } else {
      var o;
      e, o := LockMovesOrOwnerCan(s, i);
      if o.Some? {
        e := CanStep(s, o.value);
      }
    }
  }

  lemma OwnerOf(s: Service, k: nat) returns (o: nat, j: nat)
    requires Inv(s) && k < |s.tickets| && !s.tickets[k].released
    ensures o < |s.tasks| && j < |s.tasks[o].holds| && s.tasks[o].holds[j] == HoldsLock(k)
    ensures TaskFine(s.tickets, o, s.tasks[o]) && HoldFine(s.tickets, o, s.tasks[o], j)
    ensures s.tasks[o].mode != Done
  {
    assert Owned(s.tasks, s.tickets, k);
    o := s.tickets[k].owner;
    j :| 0 <= j < |s.tasks[o].holds| && s.tasks[o].holds[j] == HoldsLock(k);
    assert TaskFine(s.tickets, o, s.tasks[o]);
  }

  /** Somebody who waits while holding a resource waits for one further up. */
  lemma WaitsHigher(s: Service, o: nat, j: nat)
    requires Inv(s) && o < |s.tasks| && Entered(s.tasks[o], j) && |s.tasks[o].holds| <= |Plan(s.tasks[o].work)|
    ensures Distance(s.tasks[o]) < 4 - Rank(Plan(s.tasks[o].work)[j])
  {
    var plan := Plan(s.tasks[o].work);
    var top := |s.tasks[o].holds| - 1;
    assert j < top ==> Rank(plan[j]) < Rank(plan[top]);
  }

  /** In every reachable state, unless all work is done, some step other than new work is possible. */
  lemma DeadlockFree(s: Service)
    requires Reached(s) && exists i :: 0 <= i < |s.tasks| && s.tasks[i].mode != Done
    ensures exists e: Event :: !e.Arrive? && Enabled(s, e)
  {
    ReachedIsInv(s);
    var i :| 0 <= i < |s.tasks| && s.tasks[i].mode != Done;
    var e := CanStep(s, i);
  }

  /** Every step other than new work brings the work that is there closer to its end. */
  ghost function Steps(t: Task): nat {
    var plan, held := |Plan(t.work)|, |t.holds|;
    match t.mode
    case Done => 0
    case Unwinding => 2 * (1 + held)
    case Climbing => if held <= plan then 2 * (2 * (plan - held) + plan + 2) else 0
    case Waiting => if held <= plan then 2 * (2 * (plan - held) + plan + 3) else 0
  }

  ghost const TaskSteps: Task -> nat := t => Steps(t)

  ghost const TicketSteps: Ticket -> nat := (k: Ticket) => if k.settled then 0 else 1

  ghost function StepsLeft(s: Service): nat {
    Sum(s.tasks, TaskSteps) + Sum(s.tickets, TicketSteps)
  }

  lemma StepsDecrease(s: Service, e: Event)
    requires Inv(s) && Enabled(s, e) && !e.Arrive?
    ensures StepsLeft(Next(s, e)) < StepsLeft(s)
  {
    match e
    case Request(i) => RequestDecreases(s, i);
    case Enter(i) => TaskStepDecreases(s.tasks, i, s.tasks[i].(mode := Climbing));
    case Finish(i) =>
      assert TaskFine(s.tickets, i, s.tasks[i]);
      TaskStepDecreases(s.tasks, i, s.tasks[i].(mode := Unwinding));
    case Release(i) => ReleaseDecreases(s, i);
    case Settle(k) => SumUpdate(s.tickets, k, s.tickets[k].(settled := true), TicketSteps);
  }

  lemma TaskStepDecreases(tasks: seq<Task>, i: nat, t: Task)
    requires i < |tasks| && Steps(t) < Steps(tasks[i])
    ensures Sum(tasks[i := t], TaskSteps) == Sum(tasks, TaskSteps) - Steps(tasks[i]) + Steps(t)
  {
    SumUpdate(tasks, i, t, TaskSteps);
  }

  lemma RequestDecreases(s: Service, i: nat)
    requires Inv(s) && Enabled(s, Request(i))
    ensures StepsLeft(Next(s, Request(i))) < StepsLeft(s)
  {
    var s' := Next(s, Request(i));
    TaskStepDecreases(s.tasks, i, s'.tasks[i]);
    if Plan(s.tasks[i].work)[|s.tasks[i].holds|].Lock? {
      assert Steps(s'.tasks[i]) == Steps(s.tasks[i]) - 2;
      SumAppend(s.tickets, s'.tickets[|s.tickets|], TicketSteps);
    }
  }

  lemma ReleaseDecreases(s: Service, i: nat)
    requires Inv(s) && Enabled(s, Release(i))
    ensures StepsLeft(Next(s, Release(i))) < StepsLeft(s)
  {
    var t := s.tasks[i];
    if t.holds == [] {
      TaskStepDecreases(s.tasks, i, t.(mode := Done));
    } else {
      TaskStepDecreases(s.tasks, i, Pop(t));
      if Top(t).HoldsLock? {
        var k := s.tickets[Top(t).ticket];
        SumUpdate(s.tickets, Top(t).ticket, k.(released := true), TicketSteps);
      } else if s.waiters != [] {
        PoppedFine(s.tickets, i, t);
        HandOverDecreases(s, i, Pop(t));
      }
    }
  }

  lemma HandOverDecreases(s: Service, i: nat, t: Task)
    requires Inv(s) && i < |s.tasks| && InSlot(s.tasks[i]) && s.waiters != []
    requires !InSlot(t) && !WaitsForSlot(t) && Steps(t) < Steps(s.tasks[i])
    ensures var s' := ReturnSlot(s.(tasks := s.tasks[i := t]));
            s'.tickets == s.tickets && Sum(s'.tasks, TaskSteps) < Sum(s.tasks, TaskSteps)
  {
    HandOverKeepsSlots(s.capacity, s.active, s.waiters, s.tasks, i, t);
    var next := s.waiters[0];
    assert TaskFine(s.tickets, next, s.tasks[next]);
    TaskStepDecreases(s.tasks, i, t);
    TaskStepDecreases(s.tasks[i := t], next, s.tasks[next].(mode := Climbing));
  }

  /**
   Once no new work arrives, only so many steps remain, and when none is left all work is done: no
   wake-up is ever lost, and nothing waits for ever.
   */
  lemma {:induction false} AllWorkFinishes(s: Service, events: seq<Event>)
    requires Inv(s) && After(s, events).Some?
    requires forall e :: e in events ==> !e.Arrive?
    ensures |events| <= StepsLeft(s)
    ensures (forall e: Event :: !e.Arrive? ==> !Enabled(After(s, events).value, e)) ==>
              forall t :: t in After(s, events).value.tasks ==> t.mode == Done
    decreases |events|
  {
    if events == [] {
      forall i | 0 <= i < |s.tasks| && s.tasks[i].mode != Done
        ensures exists e: Event :: !e.Arrive? && Enabled(s, e)
      {
        var e := CanStep(s, i);
      }
    } else {
      StepKeepsInv(s, events[0]);
      StepsDecrease(s, events[0]);
      AllWorkFinishes(Next(s, events[0]), events[1..]);
    }
  }
}
