/** Idempotent issue creation as a protocol. */
module IssueCreationProtocol {
  import opened Common
  import opened IssueOperationStore

  // There are any number of concurrent requests, one operation store and one remote.  A request reserves its
  // operation, searches the remote for an earlier issue, sends one POST, and writes the outcome back on a
  // best-effort basis.  Steps of different requests interleave at every await.  A request may crash anywhere; a
  // POST may land after its sender has given up; a store write may be lost or applied late; a search may miss
  // issues that exist.

  datatype Answer = Complete(issue: Issue, replayed: bool) | Uncertain | RetryLater

  datatype Phase =
    | Arriving
    | Preflighting
    | Creating
    | Saving(issue: Issue, replayed: bool)
    | Releasing
    | Doubting
    | Reconciling
    | Answered(answer: Answer)
    | Crashed

  /** The fate of a request's one POST. */
  datatype Post = NotSent | InFlight | Landed(issue: Issue) | Refused

  datatype Request = Request(
    key: OperationKey,
    fingerprint: string,
    phase: Phase,
    post: Post,
    grantedAt: int,      // when its reservation was answered `New`
    writes: set<Write>   // store writes it has sent that may still be applied
  )

  /** One issue created on the remote. */
  datatype Landing = Landing(key: OperationKey, issue: Issue, at: int)

  datatype World = World(
    clock: int,
    records: map<OperationKey, OperationRecord>,
    requests: map<nat, Request>,
    landings: seq<Landing>
  )

  datatype Event =
    | Tick(ms: nat)
    | Forget(key: OperationKey)
    | Degrade(key: OperationKey)
    | Arrive(id: nat, key: OperationKey, fingerprint: string)
    | Reserve(id: nat, staleBefore: int, heard: bool)
    | ReserveFails(id: nat)
    | Search(id: nat, found: seq<Issue>)
    | SearchFails(id: nat)
    | Land(id: nat, issue: Issue)
    | CreateReturns(id: nat)
    | CreateRefused(id: nat)
    | CreateUnclear(id: nat)
    | WriteApplied(id: nat, write: Write)
    | WriteReturns(id: nat)
    | Crash(id: nat)

  /** The marker in an issue body names the operation identifier, and a search is limited to one repository. */
  predicate SameMarker(a: OperationKey, b: OperationKey) {
    a.repository == b.repository && a.operationId == b.operationId
  }

  ghost predicate Known(w: World, key: OperationKey, issue: Issue) {
    exists i :: 0 <= i < |w.landings| && w.landings[i].issue == issue && SameMarker(w.landings[i].key, key)
  }

  ghost predicate Enabled(w: World, e: Event) {
    match e
    case Tick(_) => true
    case Forget(key) => key in w.records && Expired(w.records[key], w.clock)
    case Degrade(key) => key in w.records && w.records[key].state == Completed
    case Arrive(id, _, _) => id !in w.requests
    case Reserve(id, _, _) => id in w.requests && w.requests[id].phase == Arriving
    case ReserveFails(id) => id in w.requests && w.requests[id].phase == Arriving
    case Search(id, found) =>
      && id in w.requests
      && w.requests[id].phase in {Preflighting, Reconciling}
      && forall issue :: issue in found ==> Known(w, w.requests[id].key, issue)
    case SearchFails(id) => id in w.requests && w.requests[id].phase in {Preflighting, Reconciling}
    case Land(id, _) => id in w.requests && w.requests[id].post == InFlight
    case CreateReturns(id) => id in w.requests && w.requests[id].phase == Creating && w.requests[id].post.Landed?
    case CreateRefused(id) => id in w.requests && w.requests[id].phase == Creating && w.requests[id].post == InFlight
    case CreateUnclear(id) => id in w.requests && w.requests[id].phase == Creating
    case WriteApplied(id, write) => id in w.requests && write in w.requests[id].writes
    case WriteReturns(id) =>
      id in w.requests
      && (w.requests[id].phase.Saving? || w.requests[id].phase == Releasing || w.requests[id].phase == Doubting)
    case Crash(id) => id in w.requests && !w.requests[id].phase.Answered?
  }

  function SaveFound(r: Request, issue: Issue, replayed: bool): Request {
    r.(phase := Saving(issue, replayed), writes := r.writes + {WriteCompleted(issue)})
  }

  function AfterSearch(r: Request, found: seq<Issue>): Request {
    if |found| == 1 then SaveFound(r, found[0], true)
    else if |found| == 0 && r.phase == Preflighting then r.(phase := Creating, post := InFlight)
    else r.(phase := Answered(Uncertain))
  }

  function AfterReserve(r: Request, answer: Reservation, clock: int): Request {
    match answer
    case New => r.(phase := Preflighting, grantedAt := clock)
    case Replayed(issue) => r.(phase := Answered(Complete(issue, true)))
    case StillAmbiguous => r.(phase := Reconciling)
    case Conflict => r.(phase := Answered(Uncertain))
    case StillPending => r.(phase := Answered(Uncertain))
  }

  function AfterWrite(r: Request): Request {
    match r.phase
    case Saving(issue, replayed) => r.(phase := Answered(Complete(issue, replayed)))
    case Releasing => r.(phase := Answered(RetryLater))
    case _ => r.(phase := Reconciling)
  }

  function SetRequest(w: World, id: nat, r: Request): World {
    w.(requests := w.requests[id := r])
  }

  ghost function Next(w: World, e: Event): World
    requires Enabled(w, e)
  {
    match e
    case Tick(ms) => w.(clock := w.clock + ms)
    case Forget(key) => w.(records := w.records - {key})
    case Degrade(key) =>
      w.(records := w.records[key := w.records[key].(state := Ambiguous, issue := None, updatedAt := w.clock)])
    case Arrive(id, key, fingerprint) =>
      SetRequest(w, id, Request(key, fingerprint, Arriving, NotSent, w.clock, {}))
    case Reserve(id, staleBefore, heard) =>
      var r := w.requests[id];
      var (answer, record) := ReserveRecord(Lookup(Live(w.records, w.clock), r.key), r.fingerprint, staleBefore,
                                            w.clock);
      var r' := if heard then AfterReserve(r, answer, w.clock) else r.(phase := Answered(Uncertain));
      SetRequest(w.(records := w.records[r.key := record]), id, r')
    case ReserveFails(id) => SetRequest(w, id, w.requests[id].(phase := Answered(Uncertain)))
    case Search(id, found) => SetRequest(w, id, AfterSearch(w.requests[id], found))
    case SearchFails(id) => SetRequest(w, id, w.requests[id].(phase := Answered(Uncertain)))
    case Land(id, issue) =>
      SetRequest(w.(landings := w.landings + [Landing(w.requests[id].key, issue, w.clock)]), id,
                 w.requests[id].(post := Landed(issue)))
    case CreateReturns(id) => SetRequest(w, id, SaveFound(w.requests[id], w.requests[id].post.issue, false))
    case CreateRefused(id) =>
      var r := w.requests[id];
      SetRequest(w, id, r.(phase := Releasing, post := Refused, writes := r.writes + {WriteRetryable}))
    case CreateUnclear(id) =>
      var r := w.requests[id];
      SetRequest(w, id, r.(phase := Doubting, writes := r.writes + {WriteAmbiguous}))
    case WriteApplied(id, write) =>
      var r := w.requests[id];
      SetRequest(w.(records := ApplyWrite(w.records, r.key, r.fingerprint, write, w.clock)), id,
                 r.(writes := r.writes - {write}))
    case WriteReturns(id) => SetRequest(w, id, AfterWrite(w.requests[id]))
    case Crash(id) => SetRequest(w, id, w.requests[id].(phase := Crashed))
  }

  /** A request whose POST lands, or whose release is applied, does so within `delay` of its reservation. */
  ghost predicate Prompt(w: World, e: Event, delay: nat)
    requires Enabled(w, e)
  {
    match e
    case Land(id, _) => w.clock <= w.requests[id].grantedAt + delay
    case WriteApplied(id, WriteRetryable) => w.clock <= w.requests[id].grantedAt + delay
    case _ => true
  }

  const Initial := World(0, map[], map[], [])

  /** The world after a run, if every step of the run was possible and prompt. */
  ghost function After(events: seq<Event>, delay: nat): Option<World> {
    if events == [] then Some(Initial)
    else
      var e := events[|events| - 1];
      match After(events[..|events| - 1], delay)
      case None => None
      case Some(w) => if Enabled(w, e) && Prompt(w, e, delay) then Some(Next(w, e)) else None
  }

  ghost predicate Reached(w: World, delay: nat) {
    exists events :: After(events, delay) == Some(w)
  }

  lemma ReachedNext(w: World, e: Event, delay: nat)
    requires Reached(w, delay) && Enabled(w, e) && Prompt(w, e, delay)
    ensures Reached(Next(w, e), delay)
  {
    var events :| After(events, delay) == Some(w);
    assert (events + [e])[..|events|] == events;
    assert After(events + [e], delay) == Some(Next(w, e));
  }

  // ----- What one request does -----------------------------------------------------------------------

  /** The request goes on with its operation and its draft, in this phase and with this post. */
  ghost predicate GoesOn(r: Request, r': Request, phase: Phase, post: Post) {
    r'.key == r.key && r'.fingerprint == r.fingerprint && r'.phase == phase && r'.post == post
  }

  /**
   What a request does with what it hears from a reservation: only a new one lets it go on to a search and a post,
   and only an ambiguous one to a search without a post.
   */
  lemma ReservationHeard(w: World, id: nat, staleBefore: int, answer: Reservation)
    requires Enabled(w, Reserve(id, staleBefore, true))
    requires exists left ::
      Decides(w.records, w.requests[id].key, w.requests[id].fingerprint, staleBefore, w.clock, answer, left)
    ensures var r, r' := w.requests[id], Next(w, Reserve(id, staleBefore, true)).requests[id];
      && r'.writes == r.writes
      && (answer == New ==> GoesOn(r, r', Preflighting, r.post) && r'.grantedAt == w.clock)
      && (answer == StillAmbiguous ==> GoesOn(r, r', Reconciling, r.post))
      && (answer in {Conflict, StillPending} ==> GoesOn(r, r', Answered(Uncertain), r.post))
      && (answer.Replayed? ==> GoesOn(r, r', Answered(Complete(answer.issue, true)), r.post))
  {
    var r := w.requests[id];
    DecidesExactly(w.records, r.key, r.fingerprint, staleBefore, w.clock);
    var left :| Decides(w.records, r.key, r.fingerprint, staleBefore, w.clock, answer, left);
    var decided := ReserveRecord(Lookup(Live(w.records, w.clock), r.key), r.fingerprint, staleBefore, w.clock).0;
    OneAnswer(w.records, r.key, r.fingerprint, staleBefore, w.clock, answer, left, decided,
              ReserveRecord(Lookup(Live(w.records, w.clock), r.key), r.fingerprint, staleBefore, w.clock).1);
  }

  lemma OneAnswer(records: map<OperationKey, OperationRecord>, key: OperationKey, fingerprint: string,
                  staleBefore: int, now: int, a: Reservation, x: OperationRecord, b: Reservation, y: OperationRecord)
    requires Decides(records, key, fingerprint, staleBefore, now, a, x)
    requires Decides(records, key, fingerprint, staleBefore, now, b, y)
    ensures a == b
  {
  }

  /**
   A single match is saved and reported; without a match a new reservation posts, once; anything else is left to the
   user.
   */
  lemma SearchHeard(w: World, id: nat, found: seq<Issue>)
    requires Enabled(w, Search(id, found))
    ensures var r, r' := w.requests[id], Next(w, Search(id, found)).requests[id];
      && (forall issue :: found == [issue] ==>
            GoesOn(r, r', Saving(issue, true), r.post) && r'.writes == r.writes + {WriteCompleted(issue)})
      && (found == [] && r.phase == Preflighting ==>
            GoesOn(r, r', Creating, InFlight) && r'.writes == r.writes)
      && (|found| > 1 || (found == [] && r.phase == Reconciling) ==>
            GoesOn(r, r', Answered(Uncertain), r.post) && r'.writes == r.writes)
  {
    assert forall issue :: found == [issue] ==> found[0] == issue;
  }

  /** What a request does with the end of its post: the write that is sent, and where it leads. */
  lemma PostHeard(w: World, id: nat)
    ensures Enabled(w, CreateReturns(id)) ==>
      var r, r' := w.requests[id], Next(w, CreateReturns(id)).requests[id];
      GoesOn(r, r', Saving(r.post.issue, false), r.post) && r'.writes == r.writes + {WriteCompleted(r.post.issue)}
    ensures Enabled(w, CreateRefused(id)) ==>
      var r, r' := w.requests[id], Next(w, CreateRefused(id)).requests[id];
      GoesOn(r, r', Releasing, Refused) && r'.writes == r.writes + {WriteRetryable}
    ensures Enabled(w, CreateUnclear(id)) ==>
      var r, r' := w.requests[id], Next(w, CreateUnclear(id)).requests[id];
      GoesOn(r, r', Doubting, r.post) && r'.writes == r.writes + {WriteAmbiguous}
  {
  }

  /** After the write, or its failure: the issue is reported, a retry is offered, or the remote is searched again. */
  lemma WriteHeard(w: World, id: nat)
    requires Enabled(w, WriteReturns(id))
    ensures var r, r' := w.requests[id], Next(w, WriteReturns(id)).requests[id];
      && (r.phase.Saving? ==> GoesOn(r, r', Answered(Complete(r.phase.issue, r.phase.replayed)), r.post))
      && (r.phase == Releasing ==> GoesOn(r, r', Answered(RetryLater), r.post))
      && (r.phase == Doubting ==> GoesOn(r, r', Reconciling, r.post))
  {
  }

  /** Over any run: what was posted was posted after a search that found nothing. */
  lemma {:induction false} PostsAfterEmptySearch(events: seq<Event>, delay: nat, id: nat)
    ensures var w := After(events, delay);
            w.Some? && id in w.value.requests && w.value.requests[id].post != NotSent ==> Search(id, []) in events
    decreases |events|
  {
    if events != [] && After(events, delay).Some? {
      var n := |events| - 1;
      PostsAfterEmptySearch(events[..n], delay, id);
      var w, e := After(events[..n], delay).value, events[n];
      assert e in events && forall x :: x in events[..n] ==> x in events;
      PostStep(w, e, id);
    }
  }

  lemma PostStep(w: World, e: Event, id: nat)
    requires Enabled(w, e)
    ensures var w' := Next(w, e);
      id in w'.requests && w'.requests[id].post != NotSent ==>
        e == Search(id, []) || (id in w.requests && w.requests[id].post != NotSent) || e == CreateRefused(id)
    ensures e == CreateRefused(id) ==> w.requests[id].post == InFlight
  {
    hide ReserveRecord, ApplyWrite, Live;
    if e.Search? {
      assert e.found == [] || |e.found| > 0;
    }
  }

  // ----- What can happen -----------------------------------------------------------------------------

  /** These events can follow each other, and lead from the one world to the other. */
  ghost predicate Leads(w: World, events: seq<Event>, w': World)
    decreases |events|
  {
    if events == [] then w' == w
    else Enabled(w, events[0]) && Leads(Next(w, events[0]), events[1..], w')
  }

  lemma LeadsOn(w: World, e: Event, events: seq<Event>, w': World)
    requires Enabled(w, e) && Leads(Next(w, e), events, w')
    ensures Leads(w, [e] + events, w')
  {
    assert ([e] + events)[0] == e && ([e] + events)[1..] == events;
  }

  lemma SomeAnswer(w: World, id: nat, e: Event) returns (events: seq<Event>, w': World)
    requires Enabled(w, e) && id in Next(w, e).requests && Next(w, e).requests[id].phase.Answered?
    ensures Leads(w, events, w') && id in w'.requests && w'.requests[id].phase.Answered?
  {
    w' := Next(w, e);
    LeadsOn(w, e, [], w');
    events := [e] + [];
  }

  /** No request is stuck: one that has not crashed can get to an answer, whatever the others do. */
  lemma RequestCanEnd(w: World, id: nat) returns (events: seq<Event>, w': World)
    requires id in w.requests && w.requests[id].phase != Crashed
    ensures Leads(w, events, w') && id in w'.requests && w'.requests[id].phase.Answered?
    decreases match w.requests[id].phase case Creating => 2 case Doubting => 1 case _ => 0
  {
    match w.requests[id].phase
    case Arriving => events, w' := SomeAnswer(w, id, ReserveFails(id));
    case Preflighting => events, w' := SomeAnswer(w, id, SearchFails(id));
    case Reconciling => events, w' := SomeAnswer(w, id, SearchFails(id));
    case Saving(_, _) => events, w' := SomeAnswer(w, id, WriteReturns(id));
    case Releasing => events, w' := SomeAnswer(w, id, WriteReturns(id));
    case Doubting =>
      events, w' := RequestCanEnd(Next(w, WriteReturns(id)), id);
      LeadsOn(w, WriteReturns(id), events, w');
      events := [WriteReturns(id)] + events;
    case Creating =>
      events, w' := RequestCanEnd(Next(w, CreateUnclear(id)), id);
      LeadsOn(w, CreateUnclear(id), events, w');
      events := [CreateUnclear(id)] + events;
    case Answered(_) => events, w' := [], w;
  }

  lemma LeadsOneByOne(w: World, events: seq<Event>, worlds: seq<World>)
    requires |worlds| == |events| + 1 && worlds[0] == w
    requires forall i :: 0 <= i < |events| ==>
        Enabled(worlds[i], events[i]) && worlds[i + 1] == Next(worlds[i], events[i])
    ensures Leads(w, events, worlds[|events|])
    decreases |events|
  {
    if events != [] {
      LeadsOneByOne(worlds[1], events[1..], worlds[1..]);
    }
  }

  lemma {:induction false} LeadsBoth(w: World, a: seq<Event>, w1: World, b: seq<Event>, w2: World)
    requires Leads(w, a, w1) && Leads(w1, b, w2)
    ensures Leads(w, a + b, w2)
    decreases |a|
  {
    if a == [] {
      assert a + b == b;
    } else {
      LeadsBoth(Next(w, a[0]), a[1..], w1, b, w2);
      LeadsOn(w, a[0], a[1..] + b, w2);
      assert a + b == [a[0]] + (a[1..] + b);
    }
  }

  lemma FreshReservationIsNew(w: World, key: OperationKey, fingerprint: string)
    requires !IsLive(w.records, key, w.clock)
    ensures ReserveRecord(Lookup(Live(w.records, w.clock), key), fingerprint, 0, w.clock)
            == (New, OperationRecord(w.clock + RETENTION_MS, fingerprint, None, Pending, w.clock))
  {
  }

  /** A request whose operation has no record is let in, and posts after an empty search. */
  lemma CanPost(w: World, id: nat) returns (events: seq<Event>, w': World)
    requires id in w.requests && w.requests[id].phase == Arriving && !IsLive(w.records, w.requests[id].key, w.clock)
    ensures var r := w.requests[id];
      var record := OperationRecord(w.clock + RETENTION_MS, r.fingerprint, None, Pending, w.clock);
      w' == SetRequest(w.(records := w.records[r.key := record]), id,
                       r.(phase := Creating, post := InFlight, grantedAt := w.clock))
    ensures Leads(w, events, w')
  {
    hide ReserveRecord, Live;
    var r := w.requests[id];
    FreshReservationIsNew(w, r.key, r.fingerprint);
    events := [Reserve(id, 0, true), Search(id, [])];
    var w1 := Next(w, events[0]);
    w' := Next(w1, events[1]);
    LeadsOneByOne(w, events, [w, w1, w']);
    assert w'.requests == w.requests[id := w'.requests[id]];
  }

  /** A post lands and returns, and its issue is saved and reported. */
  lemma CanSave(w: World, id: nat, issue: Issue) returns (events: seq<Event>, w': World)
    requires id in w.requests && w.requests[id].phase == Creating && w.requests[id].post == InFlight
    ensures Leads(w, events, w') && id in w'.requests
    ensures w'.requests[id].phase == Answered(Complete(issue, false))
    ensures w'.landings == w.landings + [Landing(w.requests[id].key, issue, w.clock)]
    ensures w'.records == ApplyWrite(w.records, w.requests[id].key, w.requests[id].fingerprint, WriteCompleted(issue),
                                     w.clock)
  {
    hide ApplyWrite;
    events := [Land(id, issue), CreateReturns(id), WriteApplied(id, WriteCompleted(issue)), WriteReturns(id)];
    var w1 := Next(w, events[0]);
    var w2 := Next(w1, events[1]);
    var w3 := Next(w2, events[2]);
    w' := Next(w3, events[3]);
    LeadsOneByOne(w, events, [w, w1, w2, w3, w']);
  }

  /** A request whose operation has no record can create its issue, report it, and leave it to be replayed. */
  lemma CreationCanSucceed(w: World, id: nat, issue: Issue) returns (events: seq<Event>, w': World)
    requires id in w.requests && w.requests[id].phase == Arriving && !IsLive(w.records, w.requests[id].key, w.clock)
    ensures Leads(w, events, w') && id in w'.requests
    ensures w'.requests[id].phase == Answered(Complete(issue, false))
    ensures w'.landings == w.landings + [Landing(w.requests[id].key, issue, w.clock)]
    ensures var key := w.requests[id].key;
      key in w'.records && w'.records[key] ==
        OperationRecord(w.clock + RETENTION_MS, w.requests[id].fingerprint, Some(issue), Completed, w.clock)
  {
    var posting, w1 := CanPost(w, id);
    var saving;
    saving, w' := CanSave(w1, id, issue);
    hide Next, Leads;
    LeadsBoth(w, posting, w1, saving, w');
    events := posting + saving;
    var key, fingerprint := w.requests[id].key, w.requests[id].fingerprint;
    WritesExactly(w1.records, key, fingerprint, WriteCompleted(issue), w.clock);
  }

  /** After a refused post the request offers a retry, and its operation can be reserved anew. */
  lemma RefusalCanBeRetried(w: World, id: nat) returns (events: seq<Event>, w': World)
    requires id in w.requests && w.requests[id].phase == Creating && w.requests[id].post == InFlight
    requires w.requests[id].key in w.records && w.records[w.requests[id].key].state == Pending
    requires w.records[w.requests[id].key].fingerprint == w.requests[id].fingerprint
    ensures Leads(w, events, w') && id in w'.requests && w'.requests[id].phase == Answered(RetryLater)
    ensures w.requests[id].key in w'.records && w'.records[w.requests[id].key].state == Retryable
  {
    events := [CreateRefused(id), WriteApplied(id, WriteRetryable), WriteReturns(id)];
    var w1 := Next(w, events[0]);
    var w2 := Next(w1, events[1]);
    w' := Next(w2, events[2]);
    LeadsOneByOne(w, events, [w, w1, w2, w']);
  }

  /** After an unclear post whose issue exists, a search that finds it lets the request report it. */
  lemma AmbiguityCanBeResolved(w: World, id: nat, issue: Issue) returns (events: seq<Event>, w': World)
    requires id in w.requests && w.requests[id].phase == Creating && Known(w, w.requests[id].key, issue)
    ensures Leads(w, events, w') && id in w'.requests && w'.requests[id].phase == Answered(Complete(issue, true))
  {
    hide ReserveRecord, ApplyWrite, Live;
    events := [CreateUnclear(id), WriteReturns(id), Search(id, [issue]), WriteReturns(id)];
    var w1 := Next(w, events[0]);
    var w2 := Next(w1, events[1]);
    assert w2.landings == w.landings && Known(w2, w2.requests[id].key, issue);
    var w3 := Next(w2, events[2]);
    w' := Next(w3, events[3]);
    LeadsOneByOne(w, events, [w, w1, w2, w3, w']);
  }

  // ----- Invariant ---------------------------------------------------------------------------------

  /** May still create an issue, or still release the reservation to somebody else. */
  predicate Dangerous(r: Request) {
    r.phase == Preflighting || r.post == InFlight || WriteRetryable in r.writes
  }

  predicate Active(w: World, id: nat, delay: nat)
    requires id in w.requests
  {
    Dangerous(w.requests[id]) && w.clock <= w.requests[id].grantedAt + delay
  }

  /** The operation's record is unexpired until `until`, and cannot be reserved anew. */
  ghost predicate Guarded(w: World, key: OperationKey, until: int) {
    key in w.records && w.records[key].state != Retryable && until <= w.records[key].expiresAt
  }

  ghost predicate WellFormedRequest(w: World, r: Request) {
    && r.grantedAt <= w.clock
    && (r.phase == Arriving ==> r.post == NotSent && r.writes == {})
    && (r.phase == Preflighting ==> r.post == NotSent && WriteRetryable !in r.writes)
    && (WriteRetryable in r.writes ==> r.post == Refused)
  }

  ghost predicate Recent(w: World, l: Landing, delay: nat) {
    w.clock < l.at + RETENTION_MS - delay
  }

  predicate Rivals(w: World, id: nat, id': nat) {
    id in w.requests && id' in w.requests && id != id' && w.requests[id].key == w.requests[id'].key
  }

  ghost predicate RequestsFine(w: World, delay: nat) {
    && (forall id :: id in w.requests ==> WellFormedRequest(w, w.requests[id]))
    && (forall id :: id in w.requests && Active(w, id, delay) ==>
          Guarded(w, w.requests[id].key, w.requests[id].grantedAt + RETENTION_MS))
    && (forall id, id' :: Rivals(w, id, id') && Active(w, id, delay) ==> !Active(w, id', delay))
  }

  ghost predicate LandingFine(w: World, l: Landing, delay: nat) {
    && l.at <= w.clock
    && (Recent(w, l, delay) ==>
          && Guarded(w, l.key, l.at + RETENTION_MS - delay)
          && forall id :: id in w.requests && w.requests[id].key == l.key ==> !Active(w, id, delay))
  }

  ghost predicate LandingsApart(w: World, gap: int) {
    forall i, j :: 0 <= i < j < |w.landings| && w.landings[i].key == w.landings[j].key ==>
      gap <= w.landings[j].at - w.landings[i].at
  }

  ghost predicate Inv(w: World, delay: nat) {
    && RequestsFine(w, delay)
    && (forall i :: 0 <= i < |w.landings| ==> LandingFine(w, w.landings[i], delay))
    && LandingsApart(w, RETENTION_MS - delay)
  }

  /** A step that changes one request, and leaves it no more dangerous than it was. */
  lemma QuietStep(w: World, id: nat, r: Request, delay: nat)
    requires Inv(w, delay) && WellFormedRequest(w, r)
    requires if id in w.requests
             then r.key == w.requests[id].key && r.grantedAt == w.requests[id].grantedAt
                  && (Dangerous(r) ==> Dangerous(w.requests[id]))
             else !Dangerous(r)
    ensures Inv(SetRequest(w, id, r), delay)
  {
    var w' := SetRequest(w, id, r);
    forall i | i in w'.requests && Active(w', i, delay) ensures i in w.requests && Active(w, i, delay) {
    }
    forall i, i' | Rivals(w', i, i') && Active(w', i, delay) ensures !Active(w', i', delay) {
      if Active(w', i', delay) {
        assert Rivals(w, i, i');
      }
    }
    forall i | 0 <= i < |w.landings| ensures LandingFine(w', w.landings[i], delay) {
      assert LandingFine(w, w.landings[i], delay);
    }
  }

  lemma TickKeepsInv(w: World, ms: nat, delay: nat)
    requires Inv(w, delay)
    ensures Inv(w.(clock := w.clock + ms), delay)
  {
    var w' := w.(clock := w.clock + ms);
    forall id | id in w'.requests && Active(w', id, delay) ensures Active(w, id, delay) {
    }
    forall i | 0 <= i < |w'.landings| ensures LandingFine(w', w'.landings[i], delay) {
      assert LandingFine(w, w.landings[i], delay);
      assert Recent(w', w.landings[i], delay) ==> Recent(w, w.landings[i], delay);
    }
  }

  /** A step that changes records but no request: every guard that matters must survive it. */
  lemma RecordsStep(w: World, records: map<OperationKey, OperationRecord>, delay: nat)
    requires Inv(w, delay)
    requires forall key, until :: Guarded(w, key, until) && w.clock < until <= w.clock + RETENTION_MS ==>
      Guarded(w.(records := records), key, until)
    requires delay < RETENTION_MS
    ensures Inv(w.(records := records), delay)
  {
    var w' := w.(records := records);
    forall id | id in w'.requests && Active(w', id, delay)
      ensures Guarded(w', w'.requests[id].key, w'.requests[id].grantedAt + RETENTION_MS)
    {
      assert Active(w, id, delay);
    }
    forall id, id' | Rivals(w', id, id') && Active(w', id, delay) ensures !Active(w', id', delay) {
      assert Rivals(w, id, id') && Active(w, id, delay);
      assert !Active(w, id', delay);
    }
    forall i | 0 <= i < |w'.landings| ensures LandingFine(w', w'.landings[i], delay) {
      assert LandingFine(w, w.landings[i], delay);
      assert forall id :: id in w.requests && Active(w', id, delay) ==> Active(w, id, delay);
    }
  }

  lemma ReserveKeepsInv(w: World, id: nat, staleBefore: int, heard: bool, delay: nat)
    requires delay < RETENTION_MS && Inv(w, delay) && Enabled(w, Reserve(id, staleBefore, heard))
    ensures Inv(Next(w, Reserve(id, staleBefore, heard)), delay)
  {
    var r := w.requests[id];
    var live := Lookup(Live(w.records, w.clock), r.key);
    var (answer, record) := ReserveRecord(live, r.fingerprint, staleBefore, w.clock);
    var w1 := w.(records := w.records[r.key := record]);
    if answer.New? {
      NothingGuardsANewReservation(w, r.key, delay);
      RecordsStep(w, w1.records, delay);
      if heard {
        GrantKeepsInv(w1, id, delay);
      } else {
        QuietStep(w1, id, r.(phase := Answered(Uncertain)), delay);
      }
    } else {
      RecordsStep(w, w1.records, delay);
      QuietStep(w1, id, if heard then AfterReserve(r, answer, w.clock) else r.(phase := Answered(Uncertain)), delay);
    }
  }

  /** A key that can be reserved anew is guarded against nothing in the future. */
  lemma NothingGuardsANewReservation(w: World, key: OperationKey, delay: nat)
    requires delay < RETENTION_MS && Inv(w, delay)
    requires var live := Lookup(Live(w.records, w.clock), key); live.None? || live.value.state == Retryable
    ensures forall until :: Guarded(w, key, until) ==> until <= w.clock
    ensures forall id :: id in w.requests && w.requests[id].key == key ==> !Active(w, id, delay)
    ensures forall i :: 0 <= i < |w.landings| && w.landings[i].key == key ==> !Recent(w, w.landings[i], delay)
  {
    if key in w.records && !Expired(w.records[key], w.clock) {
      assert key in Live(w.records, w.clock);
    }
    forall i | 0 <= i < |w.landings| && w.landings[i].key == key ensures !Recent(w, w.landings[i], delay) {
      assert LandingFine(w, w.landings[i], delay);
    }
  }

  lemma GrantKeepsInv(w: World, id: nat, delay: nat)
    requires delay < RETENTION_MS && Inv(w, delay)
    requires id in w.requests && w.requests[id].phase == Arriving
    requires Guarded(w, w.requests[id].key, w.clock + RETENTION_MS)
    requires forall i :: i in w.requests && w.requests[i].key == w.requests[id].key ==> !Active(w, i, delay)
    requires forall i :: 0 <= i < |w.landings| && w.landings[i].key == w.requests[id].key ==>
        !Recent(w, w.landings[i], delay)
    ensures Inv(SetRequest(w, id, w.requests[id].(phase := Preflighting, grantedAt := w.clock)), delay)
  {
    var w' := SetRequest(w, id, w.requests[id].(phase := Preflighting, grantedAt := w.clock));
    forall i | i in w'.requests && i != id && Active(w', i, delay) ensures Active(w, i, delay) {
    }
    forall i | 0 <= i < |w.landings| ensures LandingFine(w', w.landings[i], delay) {
      assert LandingFine(w, w.landings[i], delay);
    }
  }

  lemma WriteKeepsInv(w: World, id: nat, write: Write, delay: nat)
    requires delay < RETENTION_MS && Inv(w, delay)
    requires Enabled(w, WriteApplied(id, write)) && Prompt(w, WriteApplied(id, write), delay)
    ensures Inv(Next(w, WriteApplied(id, write)), delay)
  {
    var r := w.requests[id];
    var r' := r.(writes := r.writes - {write});
    var records := ApplyWrite(w.records, r.key, r.fingerprint, write, w.clock);
    if write == WriteRetryable {
      // The one active request of this operation steps back, and only then opens the record again.
      assert Active(w, id, delay);
      QuietStep(w, id, r', delay);
      var w1 := SetRequest(w, id, r');
      forall i | i in w1.requests && w1.requests[i].key == r.key ensures !Active(w1, i, delay) {
        if i != id {
          assert Rivals(w, id, i);
        }
      }
      forall i | 0 <= i < |w.landings| && w.landings[i].key == r.key ensures !Recent(w1, w.landings[i], delay) {
        assert LandingFine(w, w.landings[i], delay);
      }
      ReleaseKeepsInv(w1, r.key, records, delay);
    } else {
      RecordsStep(w, records, delay);
      QuietStep(w.(records := records), id, r', delay);
    }
  }

  lemma ReleaseKeepsInv(w: World, key: OperationKey, records: map<OperationKey, OperationRecord>, delay: nat)
    requires Inv(w, delay)
    requires forall k :: k != key ==> Lookup(records, k) == Lookup(w.records, k)
    requires forall id :: id in w.requests && w.requests[id].key == key ==> !Active(w, id, delay)
    requires forall i :: 0 <= i < |w.landings| && w.landings[i].key == key ==> !Recent(w, w.landings[i], delay)
    ensures Inv(w.(records := records), delay)
  {
    var w' := w.(records := records);
    forall k, until | k != key && Guarded(w, k, until) ensures Guarded(w', k, until) {
      assert Lookup(records, k) == Lookup(w.records, k);
    }
    forall id | id in w.requests ensures Active(w', id, delay) == Active(w, id, delay) {
    }
    forall i | 0 <= i < |w.landings| ensures LandingFine(w', w.landings[i], delay) {
      assert LandingFine(w, w.landings[i], delay);
    }
  }

  lemma LandKeepsInv(w: World, id: nat, issue: Issue, delay: nat)
    requires delay < RETENTION_MS && Inv(w, delay)
    requires Enabled(w, Land(id, issue)) && Prompt(w, Land(id, issue), delay)
    ensures Inv(Next(w, Land(id, issue)), delay)
  {
    var r := w.requests[id];
    var l := Landing(r.key, issue, w.clock);
    assert Active(w, id, delay);
    assert Guarded(w, r.key, r.grantedAt + RETENTION_MS);
    var w1 := SetRequest(w, id, r.(post := Landed(issue)));
    QuietStep(w, id, r.(post := Landed(issue)), delay);
    forall i | i in w1.requests && w1.requests[i].key == r.key ensures !Active(w1, i, delay) {
      if i != id {
        assert Rivals(w, id, i);
      }
    }
    forall i | 0 <= i < |w.landings| && w.landings[i].key == r.key
      ensures RETENTION_MS - delay <= w.clock - w.landings[i].at
    {
      assert LandingFine(w, w.landings[i], delay);
    }
    AppendLanding(w1, l, delay);
  }

  lemma AppendLanding(w: World, l: Landing, delay: nat)
    requires Inv(w, delay) && LandingFine(w, l, delay)
    requires forall i :: 0 <= i < |w.landings| && w.landings[i].key == l.key ==>
      RETENTION_MS - delay <= l.at - w.landings[i].at
    ensures Inv(w.(landings := w.landings + [l]), delay)
  {
    var w' := w.(landings := w.landings + [l]);
    forall id | id in w.requests ensures Active(w', id, delay) == Active(w, id, delay) {
    }
    forall i | 0 <= i < |w'.landings| ensures LandingFine(w', w'.landings[i], delay) {
      assert LandingFine(w, w'.landings[i], delay);
    }
  }

  lemma StepKeepsInv(w: World, e: Event, delay: nat)
    requires delay < RETENTION_MS
    requires Inv(w, delay) && Enabled(w, e) && Prompt(w, e, delay)
    ensures Inv(Next(w, e), delay)
  {
    match e
    case Tick(ms) => TickKeepsInv(w, ms, delay);
    case Forget(key) => RecordsStep(w, Next(w, e).records, delay);
    case Degrade(key) => RecordsStep(w, Next(w, e).records, delay);
    case Reserve(id, staleBefore, heard) => ReserveKeepsInv(w, id, staleBefore, heard, delay);
    case Land(id, issue) => LandKeepsInv(w, id, issue, delay);
    case WriteApplied(id, write) => WriteKeepsInv(w, id, write, delay);
    case _ => OwnStepKeepsInv(w, e, delay);
  }

  /** The steps of a request that touch neither store nor remote. */
  predicate OwnStep(e: Event) {
    || e.Arrive? || e.ReserveFails? || e.Search? || e.SearchFails? || e.CreateReturns? || e.CreateRefused?
    || e.CreateUnclear? || e.WriteReturns? || e.Crash?
  }

  lemma OwnStepKeepsInv(w: World, e: Event, delay: nat)
    requires Inv(w, delay) && Enabled(w, e) && OwnStep(e)
    ensures Inv(Next(w, e), delay)
  {
    QuietStep(w, e.id, Next(w, e).requests[e.id], delay);
  }

  lemma {:induction false} RunKeepsInv(events: seq<Event>, delay: nat)
    requires delay < RETENTION_MS && After(events, delay).Some?
    ensures Inv(After(events, delay).value, delay)
  {
    if events != [] {
      var front := events[..|events| - 1];
      RunKeepsInv(front, delay);
      StepKeepsInv(After(front, delay).value, events[|events| - 1], delay);
    }
  }

  // ----- At most once ------------------------------------------------------------------------------

  /**
   However requests interleave, crash or lose writes: if no request acts later than `delay` after its
   reservation, two issues created for one operation lie at least the retention minus `delay` apart.
   */
  lemma AtMostOnceWithinRetention(w: World, delay: nat)
    requires delay < RETENTION_MS && Reached(w, delay)
    ensures LandingsApart(w, RETENTION_MS - delay)
  {
    var events :| After(events, delay) == Some(w);
    RunKeepsInv(events, delay);
  }

  /** Every request for the operation is for one draft. */
  ghost predicate OneDraft(w: World, key: OperationKey, fingerprint: string) {
    forall id :: id in w.requests && w.requests[id].key == key ==> w.requests[id].fingerprint == fingerprint
  }

  ghost predicate OperationApart(w: World, key: OperationKey, gap: int) {
    forall i, j :: 0 <= i < j < |w.landings| && w.landings[i].key == key && w.landings[j].key == key ==>
      gap <= w.landings[j].at - w.landings[i].at
  }

  /** In every run, two issues created for the operation lie at least `gap` apart. */
  ghost predicate AlwaysApart(key: OperationKey, delay: nat, gap: int) {
    forall w :: Reached(w, delay) ==> OperationApart(w, key, gap)
  }

  /** The same for the runs that ask for one draft under this operation. */
  ghost predicate DraftApart(key: OperationKey, fingerprint: string, delay: nat, gap: int) {
    forall w :: Reached(w, delay) && OneDraft(w, key, fingerprint) ==> OperationApart(w, key, gap)
  }

  /** How long after an issue was created no second one is, if requests act within `delay` of their reservation. */
  function ProtectedTime(delay: nat): nat {
    if delay < RETENTION_MS then RETENTION_MS - delay else 0
  }

  /**
   For every operation and draft the protected time is exactly the retention less the request delay: no run comes
   closer, and one comes as close.
   */
  lemma AtMostOnceExactly(key: OperationKey, fingerprint: string, delay: nat, gap: int)
    ensures AlwaysApart(key, delay, gap) <==> gap <= ProtectedTime(delay)
    ensures DraftApart(key, fingerprint, delay, gap) <==> gap <= ProtectedTime(delay)
  {
    if gap <= ProtectedTime(delay) {
      forall w | Reached(w, delay) ensures OperationApart(w, key, gap) {
        if delay < RETENTION_MS {
          AtMostOnceWithinRetention(w, delay);
        } else {
          LandingsInOrder(w, delay);
        }
      }
    } else if delay < RETENTION_MS {
      var w := LateLanding(key, fingerprint, delay);
      assert !OperationApart(w, key, gap);
    } else {
      var w := OutlivedRecord(key, fingerprint, delay);
      assert !OperationApart(w, key, gap);
    }
  }

  /** Issues are listed in the order of their creation. */
  lemma LandingsInOrder(w: World, delay: nat)
    requires Reached(w, delay)
    ensures LandingsApart(w, 0)
  {
    var events :| After(events, delay) == Some(w);
    RunKeepsOrder(events, delay);
  }

  lemma {:induction false} RunKeepsOrder(events: seq<Event>, delay: nat)
    requires After(events, delay).Some?
    ensures var w := After(events, delay).value;
            LandingsApart(w, 0) && forall i :: 0 <= i < |w.landings| ==> w.landings[i].at <= w.clock
  {
    if events != [] {
      RunKeepsOrder(events[..|events| - 1], delay);
    }
  }

  lemma Does(w: World, e: Event, delay: nat) returns (w': World)
    requires Reached(w, delay) && Enabled(w, e) && Prompt(w, e, delay)
    ensures Reached(w', delay) && w' == Next(w, e)
  {
    ReachedNext(w, e, delay);
    w' := Next(w, e);
  }

  /** A new request that is granted its reservation and, having found nothing, sends its POST. */
  lemma SendsPost(w: World, id: nat, key: OperationKey, fp: string, delay: nat) returns (w': World)
    requires Reached(w, delay) && id !in w.requests
    requires key !in w.records || Expired(w.records[key], w.clock)
             || (w.records[key].state == Retryable && w.records[key].fingerprint == fp)
    ensures Reached(w', delay) && w'.clock == w.clock && w'.landings == w.landings
    ensures w'.requests == w.requests[id := Request(key, fp, Creating, InFlight, w.clock, {})]
    ensures key in w'.records && w'.records[key].state == Pending && w'.records[key].fingerprint == fp
    ensures w'.records[key].expiresAt == w.clock + RETENTION_MS
    ensures OneDraft(w, key, fp) ==> OneDraft(w', key, fp)
  {
    w' := Does(w, Arrive(id, key, fp), delay);
    w' := Does(w', Reserve(id, w.clock - 1, true), delay);
    assert w'.requests[id].phase == Preflighting;
    w' := Does(w', Search(id, []), delay);
    assert w'.requests == w.requests[id := w'.requests[id]];
  }

  /** A POST that is under way lands. */
  lemma Lands(w: World, id: nat, issue: Issue, key: OperationKey, fp: string, delay: nat) returns (w': World)
    requires Reached(w, delay) && id in w.requests
        && w.requests[id] == Request(key, fp, Creating, InFlight, w.requests[id].grantedAt, {})
    requires w.clock <= w.requests[id].grantedAt + delay
    ensures Reached(w', delay) && w'.clock == w.clock && w'.records == w.records
    ensures w'.landings == w.landings + [Landing(key, issue, w.clock)]
    ensures w'.requests == w.requests[id := w.requests[id].(post := Landed(issue))]
    ensures OneDraft(w, key, fp) ==> OneDraft(w', key, fp)
  {
    w' := Does(w, Land(id, issue), delay);
  }

  /**
   The first request's POST lands as late as it may, and its completion is lost; a second request reserves as
   soon as the record has expired, its search misses the issue, and its POST lands at once.
   */
  lemma LateLanding(key: OperationKey, fp: string, delay: nat) returns (w: World)
    requires delay < RETENTION_MS
    ensures Reached(w, delay) && OneDraft(w, key, fp)
    ensures |w.landings| == 2 && w.landings[0].key == key && w.landings[1].key == key
    ensures w.landings[1].at - w.landings[0].at == RETENTION_MS - delay
  {
    assert After([], delay) == Some(Initial);
    w := SendsPost(Initial, 1, key, fp, delay);
    w := Does(w, Tick(delay), delay);
    w := Lands(w, 1, Issue(1), key, fp, delay);
    w := Does(w, Tick(RETENTION_MS - delay), delay);
    w := SendsPost(w, 2, key, fp, delay);
    w := Lands(w, 2, Issue(2), key, fp, delay);
  }

  /** A request that was refused, but whose release is still on its way when its record expires. */
  lemma LateRelease(key: OperationKey, fp: string, delay: nat) returns (w: World)
    ensures Reached(w, delay) && w.clock == RETENTION_MS && w.landings == []
    ensures 1 in w.requests && w.requests[1] == Request(key, fp, Releasing, Refused, 0, {WriteRetryable})
    ensures 2 !in w.requests && 3 !in w.requests
    ensures key in w.records && Expired(w.records[key], w.clock) && OneDraft(w, key, fp)
  {
    assert After([], delay) == Some(Initial);
    w := SendsPost(Initial, 1, key, fp, delay);
    w := Does(w, CreateRefused(1), delay);
    assert w.requests[1].writes == {WriteRetryable};
    w := Does(w, Tick(RETENTION_MS), delay);
  }

  /** That release re-opens the record which a second request holds by now. */
  lemma ReleaseOfAnothersRecord(w: World, key: OperationKey, fp: string, delay: nat) returns (w': World)
    requires RETENTION_MS <= delay && Reached(w, delay) && w.clock == RETENTION_MS
    requires 1 in w.requests && w.requests[1] == Request(key, fp, Releasing, Refused, 0, {WriteRetryable})
    requires key in w.records && w.records[key].state == Pending && w.records[key].fingerprint == fp
    ensures Reached(w', delay) && w'.clock == w.clock && w'.landings == w.landings
    ensures w'.requests == w.requests[1 := w.requests[1].(writes := {})]
    ensures key in w'.records && w'.records[key].state == Retryable && w'.records[key].fingerprint == fp
    ensures OneDraft(w, key, fp) ==> OneDraft(w', key, fp)
  {
    w' := Does(w, WriteApplied(1, WriteRetryable), delay);
    assert w'.requests[1].writes == {};
  }

  /**
   A request that outlives its record: it reserves, waits out the whole retention, and its late release
   re-opens the record that a second request holds, so that a third one is granted it as well.
   */
  lemma OutlivedRecord(key: OperationKey, fp: string, delay: nat) returns (w: World)
    requires RETENTION_MS <= delay
    ensures Reached(w, delay) && OneDraft(w, key, fp)
    ensures |w.landings| == 2 && w.landings[0].key == key && w.landings[1].key == key
    ensures w.landings[1].at == w.landings[0].at
  {
    hide OneDraft, Reached;
    w := LateRelease(key, fp, delay);
    w := SendsPost(w, 2, key, fp, delay);
    w := ReleaseOfAnothersRecord(w, key, fp, delay);
    w := SendsPost(w, 3, key, fp, delay);
    w := Lands(w, 2, Issue(1), key, fp, delay);
    w := Lands(w, 3, Issue(2), key, fp, delay);
  }

  // ----- What the answers mean -----------------------------------------------------------------------

  /** The issues a request vouches for, in its answer or in a write it sent. */
  predicate Claims(r: Request, issue: Issue) {
    || WriteCompleted(issue) in r.writes
    || (r.phase.Saving? && r.phase.issue == issue)
    || (r.phase.Answered? && r.phase.answer.Complete? && r.phase.answer.issue == issue)
    || r.post == Landed(issue)
  }

  ghost predicate RequestTruthful(w: World, r: Request) {
    && (forall issue :: Claims(r, issue) ==> Known(w, r.key, issue))
    && (r.phase == Releasing || r.phase == Answered(RetryLater) ==> r.post == Refused)
  }

  ghost predicate Truthful(w: World) {
    && (forall key :: key in w.records && w.records[key].issue.Some? ==> Known(w, key, w.records[key].issue.value))
    && (forall id :: id in w.requests ==> RequestTruthful(w, w.requests[id]))
  }

  lemma RequestStepTruthful(w: World, id: nat, r: Request)
    requires Truthful(w) && RequestTruthful(w, r)
    ensures Truthful(SetRequest(w, id, r))
  {
    var w' := SetRequest(w, id, r);
    forall key, issue | Known(w, key, issue) ensures Known(w', key, issue) {
    }
    forall i | i in w'.requests ensures RequestTruthful(w', w'.requests[i]) {
      assert RequestTruthful(w, w'.requests[i]);
    }
  }

  lemma RecordStepTruthful(w: World, key: OperationKey, record: OperationRecord)
    requires Truthful(w) && (record.issue.Some? ==> Known(w, key, record.issue.value))
    ensures Truthful(w.(records := w.records[key := record]))
  {
    var w' := w.(records := w.records[key := record]);
    forall k, issue | Known(w, k, issue) ensures Known(w', k, issue) {
    }
    forall i | i in w'.requests ensures RequestTruthful(w', w'.requests[i]) {
      assert RequestTruthful(w, w'.requests[i]);
    }
  }

  lemma LandingStepTruthful(w: World, l: Landing)
    requires Truthful(w)
    ensures Truthful(w.(landings := w.landings + [l])) && Known(w.(landings := w.landings + [l]), l.key, l.issue)
  {
    var w' := w.(landings := w.landings + [l]);
    forall key, issue | Known(w, key, issue) ensures Known(w', key, issue) {
      var i :| 0 <= i < |w.landings| && w.landings[i].issue == issue && SameMarker(w.landings[i].key, key);
      assert w'.landings[i] == w.landings[i];
    }
    assert w'.landings[|w.landings|] == l;
    forall i | i in w'.requests ensures RequestTruthful(w', w'.requests[i]) {
      assert RequestTruthful(w, w'.requests[i]);
    }
  }

  lemma ReserveTruthful(w: World, id: nat, staleBefore: int, heard: bool)
    requires Truthful(w) && Enabled(w, Reserve(id, staleBefore, heard))
    ensures Truthful(Next(w, Reserve(id, staleBefore, heard)))
  {
    var r := w.requests[id];
    assert RequestTruthful(w, r);
    var (answer, record) := ReserveRecord(Lookup(Live(w.records, w.clock), r.key), r.fingerprint, staleBefore, w.clock);
    var w1 := w.(records := w.records[r.key := record]);
    RecordStepTruthful(w, r.key, record);
    var r' := Next(w, Reserve(id, staleBefore, heard)).requests[id];
    forall issue | Claims(r', issue) ensures Known(w1, r.key, issue) {
      if !Claims(r, issue) {
        assert answer == Replayed(issue);
        assert w.records[r.key].issue == Some(issue);
        assert Known(w, r.key, issue);
      } else {
        assert Known(w, r.key, issue);
      }
    }
    RequestStepTruthful(w1, id, r');
  }

  lemma StepKeepsTruthful(w: World, e: Event)
    requires Truthful(w) && Enabled(w, e)
    ensures Truthful(Next(w, e))
  {
    match e
    case Tick(_) =>
      var w' := Next(w, e);
      forall key, issue | Known(w, key, issue) ensures Known(w', key, issue) {
      }
      forall i | i in w'.requests ensures RequestTruthful(w', w'.requests[i]) {
        assert RequestTruthful(w, w'.requests[i]);
      }
    case Forget(key) =>
      var w' := Next(w, e);
      forall k, issue | Known(w, k, issue) ensures Known(w', k, issue) {
      }
      forall i | i in w'.requests ensures RequestTruthful(w', w'.requests[i]) {
        assert RequestTruthful(w, w'.requests[i]);
      }
    case Degrade(key) => RecordStepTruthful(w, key, Next(w, e).records[key]);
    case Reserve(id, staleBefore, heard) => ReserveTruthful(w, id, staleBefore, heard);
    case Land(id, issue) =>
      var l := Landing(w.requests[id].key, issue, w.clock);
      LandingStepTruthful(w, l);
      var w1 := w.(landings := w.landings + [l]);
      assert RequestTruthful(w1, w1.requests[id]);
      RequestStepTruthful(w1, id, Next(w, e).requests[id]);
    case WriteApplied(id, write) =>
      var r := w.requests[id];
      assert RequestTruthful(w, r);
      var w1 := w.(records := ApplyWrite(w.records, r.key, r.fingerprint, write, w.clock));
      if w1.records != w.records {
        if write.WriteCompleted? {
          assert Claims(r, write.issue);
        }
        RecordStepTruthful(w, r.key, w1.records[r.key]);
      }
      forall issue | Known(w, r.key, issue) ensures Known(w1, r.key, issue) {
      }
      RequestStepTruthful(w1, id, r.(writes := r.writes - {write}));
    case _ =>
      OwnStepTruthful(w, e);
  }

  lemma OwnStepTruthful(w: World, e: Event)
    requires Truthful(w) && Enabled(w, e) && OwnStep(e)
    ensures Truthful(Next(w, e))
  {
    var r' := Next(w, e).requests[e.id];
    if !e.Arrive? {
      assert RequestTruthful(w, w.requests[e.id]);
    }
    forall issue | Claims(r', issue) ensures Known(w, r'.key, issue) {
      if e.Search? && !Claims(w.requests[e.id], issue) {
        assert issue == e.found[0];
      }
    }
    RequestStepTruthful(w, e.id, r');
  }

  lemma {:induction false} RunKeepsTruthful(events: seq<Event>, delay: nat)
    requires After(events, delay).Some?
    ensures Truthful(After(events, delay).value)
  {
    if events != [] {
      var front := events[..|events| - 1];
      RunKeepsTruthful(front, delay);
      StepKeepsTruthful(After(front, delay).value, events[|events| - 1]);
    }
  }

  /**
   In every run, prompt or not: an answer `Complete` names an issue that was created under the same
   marker, and an answer `RetryLater` comes from a request that created nothing.
   */
  lemma AnswersAreTrue(w: World, delay: nat, id: nat)
    requires Reached(w, delay) && id in w.requests && w.requests[id].phase.Answered?
    ensures match w.requests[id].phase.answer
            case Complete(issue, _) => Known(w, w.requests[id].key, issue)
            case RetryLater => w.requests[id].post == Refused
            case Uncertain => true
  {
    var events :| After(events, delay) == Some(w);
    RunKeepsTruthful(events, delay);
    assert RequestTruthful(w, w.requests[id]);
    if w.requests[id].phase.answer.Complete? {
      assert Claims(w.requests[id], w.requests[id].phase.answer.issue);
    }
  }

  /** While one operation's creations lie within one retention window, everybody is told the same issue. */
  lemma AnswersAgree(w: World, delay: nat, id: nat, id': nat)
    requires delay < RETENTION_MS && Reached(w, delay)
    requires id in w.requests && id' in w.requests && w.requests[id].key == w.requests[id'].key
    requires w.requests[id].phase.Answered? && w.requests[id].phase.answer.Complete?
    requires w.requests[id'].phase.Answered? && w.requests[id'].phase.answer.Complete?
    requires forall i :: 0 <= i < |w.landings| && SameMarker(w.landings[i].key, w.requests[id].key) ==>
      w.landings[i].key == w.requests[id].key
    requires forall i, j :: 0 <= i < j < |w.landings| && w.landings[i].key == w.landings[j].key ==>
      w.landings[j].at - w.landings[i].at < RETENTION_MS - delay
    ensures w.requests[id].phase.answer.issue == w.requests[id'].phase.answer.issue
  {
    AtMostOnceWithinRetention(w, delay);
    AnswersAreTrue(w, delay, id);
    AnswersAreTrue(w, delay, id');
  }
}
