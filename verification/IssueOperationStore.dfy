/** The operation store behind idempotent issue creation. */
module IssueOperationStore {
  import opened Common

  // One record per operation moves between pending, retryable, ambiguous and completed.  The in-memory store
  // keeps its records in a map that remembers insertion order, and removes expired records lazily: every
  // reservation looks at no more than 64 records at the front of that order, drops the expired ones and moves
  // the others to the back.

  const RETENTION_MS := 30 * 24 * 60 * 60 * 1_000
  const CLEANUP_BATCH_SIZE := 64

  /** Who asked, for which repository, under which operation identifier. */
  datatype OperationKey = OperationKey(userId: string, repository: string, operationId: string)

  datatype Issue = Issue(number: nat)

  datatype OperationState = Ambiguous | Completed | Pending | Retryable

  datatype OperationRecord = OperationRecord(
    expiresAt: int,
    fingerprint: string,
    issue: Option<Issue>,
    state: OperationState,
    updatedAt: int
  )

  datatype Reservation =
    | StillAmbiguous
    | Conflict
    | New
    | StillPending
    | Replayed(issue: Issue)

  /** What one `transition` call writes, and from which states it may do so. */
  datatype Write = WriteCompleted(issue: Issue) | WriteAmbiguous | WriteRetryable

  predicate Expired(record: OperationRecord, now: int) {
    record.expiresAt <= now
  }

  /** The answer and the new record for a key whose live record, if any, is `current`. */
  function ReserveRecord(current: Option<OperationRecord>, fingerprint: string, staleBefore: int, now: int)
    : (r: (Reservation, OperationRecord))
    ensures r.0.New? ==> r.1.state == Pending && r.1.fingerprint == fingerprint
                         && r.1.expiresAt == now + RETENTION_MS
    ensures r.0.New? <==> current.None?
                          || (current.value.state == Retryable && current.value.fingerprint == fingerprint)
    ensures r.0.Replayed? ==> current.Some? && current.value.issue == Some(r.0.issue)
  {
    match current
    case None =>
      (New, OperationRecord(now + RETENTION_MS, fingerprint, None, Pending, now))
    case Some(record) =>
      if record.fingerprint != fingerprint then (Conflict, record)
      else if record.state == Completed && record.issue.Some? then (Replayed(record.issue.value), record)
      else if record.state == Retryable then
        (New, record.(state := Pending, updatedAt := now, expiresAt := now + RETENTION_MS))
      else if record.state == Ambiguous then (StillAmbiguous, record)
      else if record.updatedAt <= staleBefore then
        (StillAmbiguous, record.(state := Ambiguous, updatedAt := now))
      else (StillPending, record)
  }

  predicate MayWrite(record: OperationRecord, fingerprint: string, write: Write) {
    && record.fingerprint == fingerprint
    && (record.state == Pending || (write.WriteCompleted? && record.state == Ambiguous))
  }

  function Written(write: Write, record: OperationRecord, now: int): OperationRecord {
    match write
    case WriteCompleted(issue) =>
      OperationRecord(now + RETENTION_MS, record.fingerprint, Some(issue), Completed, now)
    case WriteAmbiguous =>
      OperationRecord(now + RETENTION_MS, record.fingerprint, None, Ambiguous, now)
    case WriteRetryable =>
      OperationRecord(now + RETENTION_MS, record.fingerprint, None, Retryable, now)
  }

  // ----- What a call does to one record ------------------------------------------------------------------

  ghost predicate IsLive(records: map<OperationKey, OperationRecord>, key: OperationKey, now: int) {
    key in records && now < records[key].expiresAt
  }

  /** Under way, as far as the record tells. */
  ghost predicate IsOpen(r: OperationRecord) {
    r.state == Pending || (r.state == Completed && r.issue == None)
  }

  /** When a reservation that finds a live record gets which answer. */
  ghost predicate AnswersLive(r: OperationRecord, fingerprint: string, staleBefore: int, answer: Reservation) {
    var own := r.fingerprint == fingerprint;
    && (answer == Conflict <==> !own)
    && (forall issue :: answer == Replayed(issue) <==> own && r.state == Completed && r.issue == Some(issue))
    && (answer == New <==> own && r.state == Retryable)
    && (answer == StillAmbiguous <==> own && (r.state == Ambiguous || (IsOpen(r) && r.updatedAt <= staleBefore)))
    && (answer == StillPending <==> own && IsOpen(r) && staleBefore < r.updatedAt)
  }

  /** What a reservation leaves: a new attempt, one that has become ambiguous, or what was there. */
  ghost predicate LeavesLive(r: OperationRecord, answer: Reservation, now: int, left: OperationRecord) {
    && (answer == New ==> left == OperationRecord(now + RETENTION_MS, r.fingerprint, r.issue, Pending, now))
    && (answer == StillAmbiguous && r.state != Ambiguous ==>
          left == OperationRecord(r.expiresAt, r.fingerprint, r.issue, Ambiguous, now))
    && (answer != New && (answer == StillAmbiguous ==> r.state == Ambiguous) ==> left == r)
  }

  /** The answer and the record that is left, from the record that is live for the key, if any. */
  ghost predicate Decides(records: map<OperationKey, OperationRecord>, key: OperationKey, fingerprint: string,
                          staleBefore: int, now: int, answer: Reservation, left: OperationRecord) {
    if IsLive(records, key, now) then
      AnswersLive(records[key], fingerprint, staleBefore, answer) && LeavesLive(records[key], answer, now, left)
    else answer == New && left == OperationRecord(now + RETENTION_MS, fingerprint, None, Pending, now)
  }

  /** What a transition leaves: the record it writes over one under way for the same draft, or what was there. */
  ghost predicate Writes(r: OperationRecord, fingerprint: string, write: Write, now: int, left: OperationRecord) {
    var underWay := r.state == Pending || (r.state == Ambiguous && write.WriteCompleted?);
    && (r.fingerprint != fingerprint || !underWay ==> left == r)
    && (r.fingerprint == fingerprint && underWay ==>
          && left.expiresAt == now + RETENTION_MS && left.updatedAt == now && left.fingerprint == fingerprint
          && (left.state == Completed <==> write.WriteCompleted?)
          && (left.state == Ambiguous <==> write.WriteAmbiguous?)
          && (left.state == Retryable <==> write.WriteRetryable?)
          && left.issue == if write.WriteCompleted? then Some(write.issue) else None)
  }

  lemma DecidesExactly(records: map<OperationKey, OperationRecord>, key: OperationKey, fingerprint: string,
                       staleBefore: int, now: int)
    ensures var (answer, left) := ReserveRecord(Lookup(Live(records, now), key), fingerprint, staleBefore, now);
            Decides(records, key, fingerprint, staleBefore, now, answer, left)
  {
  }

  lemma WritesExactly<K>(records: map<K, OperationRecord>, key: K, fingerprint: string, write: Write, now: int)
    ensures var after := ApplyWrite(records, key, fingerprint, write, now);
      && after.Keys == records.Keys && (forall k :: k in records && k != key ==> after[k] == records[k])
      && (key in records ==> Writes(records[key], fingerprint, write, now, after[key]))
  {
  }

  // ----- The eager store: what the answers mean ------------------------------------------------

  /** The records that are still live at `now`. */
  function Live<K>(records: map<K, OperationRecord>, now: int): map<K, OperationRecord> {
    map k | k in records && !Expired(records[k], now) :: records[k]
  }

  function Lookup<K, V>(m: map<K, V>, k: K): Option<V> {
    if k in m then Some(m[k]) else None
  }

  /** A store that holds live records only. */
  function EagerReserve<K>(live: map<K, OperationRecord>, key: K, fingerprint: string, staleBefore: int, now: int)
    : (Reservation, map<K, OperationRecord>)
  {
    var (answer, record) := ReserveRecord(Lookup(live, key), fingerprint, staleBefore, now);
    (answer, live[key := record])
  }

  function ApplyWrite<K>(records: map<K, OperationRecord>, key: K, fingerprint: string, write: Write, now: int)
    : map<K, OperationRecord>
  {
    if key in records && MayWrite(records[key], fingerprint, write)
    then records[key := Written(write, records[key], now)]
    else records
  }

  /**
   A completion that the store took is what every later reservation of that draft hears, for as long as it is
   kept.
   */
  lemma CompletedIsReplayed<K>(
      records: map<K, OperationRecord>, key: K, fingerprint: string, issue: Issue, now: int, later: int,
      staleBefore: int)
    requires key in records && MayWrite(records[key], fingerprint, WriteCompleted(issue))
    ensures var after := ApplyWrite(records, key, fingerprint, WriteCompleted(issue), now);
            EagerReserve(Live(after, later), key, fingerprint, staleBefore, later).0 == Replayed(issue)
            <==> later < now + RETENTION_MS
  {
    var after := ApplyWrite(records, key, fingerprint, WriteCompleted(issue), now);
    assert key in Live(after, later) <==> later < now + RETENTION_MS;
  }

  // ----- The lazy store ------------------------------------------------------------------------

  /** A map that remembers insertion order: `order` lists the keys of `records`. */
  datatype Store = Store(order: seq<OperationKey>, records: map<OperationKey, OperationRecord>)

  ghost predicate ValidStore(s: Store) {
    && Distinct(s.order)
    && (forall k :: k in s.order <==> k in s.records)
  }

  /** Deleting a key from the order. */
  function Without(order: seq<OperationKey>, key: OperationKey): (r: seq<OperationKey>)
    ensures forall k :: k in r ==> k in order
    ensures forall k :: k in order && k != key ==> k in r
    ensures Distinct(order) ==> Distinct(r) && key !in r
  {
    if order == [] then []
    else
      assert order == [order[0]] + order[1..];
      assert Distinct(order) ==> Distinct(order[1..]) && order[0] !in order[1..];
      if order[0] == key then order[1..] else [order[0]] + Without(order[1..], key)
  }

  lemma {:induction false} WithoutSplits(a: seq<OperationKey>, key: OperationKey, b: seq<OperationKey>)
    requires key !in a
    ensures Without(a + [key] + b, key) == a + b
  {
    if a == [] {
      assert a + [key] + b == [key] + b;
    } else {
      WithoutSplits(a[1..], key, b);
      assert (a + [key] + b)[1..] == a[1..] + [key] + b;
      assert a + b == [a[0]] + (a[1..] + b);
    }
  }

  /** The members of `keys` whose record has not expired, in order. */
  function LiveKeys(keys: seq<OperationKey>, records: map<OperationKey, OperationRecord>,
                    now: int): (r: seq<OperationKey>)
    requires forall k :: k in keys ==> k in records
    ensures forall k :: k in r <==> k in keys && !Expired(records[k], now)
    ensures |r| <= |keys|
    ensures Distinct(keys) ==> Distinct(r)
  {
    if keys == [] then []
    else
      var last := keys[|keys| - 1];
      var front := LiveKeys(keys[..|keys| - 1], records, now);
      assert keys == keys[..|keys| - 1] + [last];
      if Expired(records[last], now) then front else front + [last]
  }

  /** The order after one cleanup: the first 64 keys are scanned, and the live ones among them move to the back. */
  function SweptOrder(s: Store, now: int): (r: seq<OperationKey>)
    requires ValidStore(s)
    ensures Distinct(r)
    ensures forall k :: k in r ==> k in s.records
    ensures forall k :: k in s.records && !Expired(s.records[k], now) ==> k in r
  {
    var n := Min(CLEANUP_BATCH_SIZE, |s.order|);
    assert s.order == s.order[..n] + s.order[n..];
    DistinctParts(s.order[..n], s.order[n..]);
    DistinctConcat(s.order[n..], LiveKeys(s.order[..n], s.records, now));
    s.order[n..] + LiveKeys(s.order[..n], s.records, now)
  }

  function Swept(s: Store, now: int): (r: Store)
    requires ValidStore(s)
    ensures ValidStore(r)
  {
    var order := SweptOrder(s, now);
    Store(order, map k | k in s.records && k in order :: s.records[k])
  }

  function Put(s: Store, key: OperationKey, record: OperationRecord): (r: Store)
    requires ValidStore(s)
    ensures ValidStore(r)
  {
    Store(if key in s.records then s.order else s.order + [key], s.records[key := record])
  }

  function Delete(s: Store, key: OperationKey): (r: Store)
    requires ValidStore(s)
    ensures ValidStore(r)
  {
    Store(Without(s.order, key), s.records - {key})
  }

  /** What a reservation finds: the swept store, without the key's own record if that has expired. */
  function Cleared(s: Store, key: OperationKey, now: int): (r: Store)
    requires ValidStore(s)
    ensures ValidStore(r)
  {
    var swept := Swept(s, now);
    if key in swept.records && Expired(swept.records[key], now) then Delete(swept, key) else swept
  }

  function ReserveStore(s: Store, key: OperationKey, fingerprint: string, staleBefore: int, now: int)
    : (r: (Reservation, Store))
    requires ValidStore(s)
    ensures ValidStore(r.1)
  {
    var current := Cleared(s, key, now);
    var (answer, record) := ReserveRecord(Lookup(current.records, key), fingerprint, staleBefore, now);
    (answer, Put(current, key, record))
  }

  function IndexOf(order: seq<OperationKey>, key: OperationKey): (i: nat)
    requires key in order
    ensures i < |order| && order[i] == key && key !in order[..i]
  {
    if order[0] == key then 0 else 1 + IndexOf(order[1..], key)
  }

  /** Cleaning up drops expired records only, and changes none. */
  lemma SweptKeepsLive(s: Store, now: int, at: int)
    requires ValidStore(s) && now <= at
    ensures Live(Swept(s, now).records, at) == Live(s.records, at)
    ensures forall k :: k in Swept(s, now).records ==> k in s.records && Swept(s, now).records[k] == s.records[k]
  {
    var order := SweptOrder(s, now);
    forall k | k in Live(s.records, at) ensures k in Live(Swept(s, now).records, at) {
      assert k in s.records && !Expired(s.records[k], now);
      assert k in order;
    }
  }

  lemma ClearedKeepsLive(s: Store, key: OperationKey, now: int)
    requires ValidStore(s)
    ensures Live(Cleared(s, key, now).records, now) == Live(s.records, now)
    ensures Lookup(Cleared(s, key, now).records, key) == Lookup(Live(s.records, now), key)
  {
    SweptKeepsLive(s, now, now);
    var swept := Swept(s, now).records;
    LookupLive(swept, key, now);
    if key in swept && Expired(swept[key], now) {
      DroppingExpiredKeepsLive(swept, key, now);
    }
  }

  lemma LookupLive<K>(m: map<K, OperationRecord>, key: K, now: int)
    ensures Lookup(Live(m, now), key) == if key in m && Expired(m[key], now) then None else Lookup(m, key)
  {
  }

  lemma DroppingExpiredKeepsLive<K>(m: map<K, OperationRecord>, key: K, now: int)
    requires key in m && Expired(m[key], now)
    ensures Live(m - {key}, now) == Live(m, now)
  {
  }

  /**
   Lazy expiry refines eager expiry: a reservation answers, and leaves live records, exactly as if
   every expired record had been removed beforehand.
   */
  lemma LazyReserveRefinesEager(s: Store, key: OperationKey, fingerprint: string, staleBefore: int, now: int)
    requires ValidStore(s)
    ensures var (answer, after) := ReserveStore(s, key, fingerprint, staleBefore, now);
            var (eagerAnswer, eagerAfter) := EagerReserve(Live(s.records, now), key, fingerprint, staleBefore, now);
            answer == eagerAnswer && Live(after.records, now) == Live(eagerAfter, now)
  {
    ClearedKeepsLive(s, key, now);
    var current := Cleared(s, key, now).records;
    var record := ReserveRecord(Lookup(current, key), fingerprint, staleBefore, now).1;
    LiveUpdate(current, Live(s.records, now), key, record, now);
  }

  /**
   Seen from outside, a reservation forgets some expired records and then decides about its own key:
   this is the form in which the creation protocol uses the store.
   */
  lemma ReserveForgetsThenDecides(s: Store, key: OperationKey, fingerprint: string, staleBefore: int, now: int)
    requires ValidStore(s)
    ensures var (answer, after) := ReserveStore(s, key, fingerprint, staleBefore, now);
            var (decided, record) := ReserveRecord(Lookup(Live(s.records, now), key), fingerprint, staleBefore, now);
            && answer == decided
            && key in after.records && after.records[key] == record
            && (forall k :: k in after.records && k != key ==> k in s.records && after.records[k] == s.records[k])
            && (forall k :: k in s.records && k !in after.records ==> Expired(s.records[k], now))
  {
    SweptKeepsLive(s, now, now);
    ClearedKeepsLive(s, key, now);
    forall k | k in s.records && !Expired(s.records[k], now) ensures k in Cleared(s, key, now).records {
      assert k in Live(Cleared(s, key, now).records, now);
    }
  }

  lemma LiveUpdate<K>(m: map<K, OperationRecord>, m': map<K, OperationRecord>, key: K, record: OperationRecord,
                      now: int)
    requires Live(m, now) == m'
    ensures Live(m[key := record], now) == Live(m'[key := record], now)
  {
    forall k | k in m && k != key && !Expired(m[k], now) ensures k in m' && m'[k] == m[k] {
      assert k in Live(m, now);
    }
  }

  /**
   A transition does not look at expiry, so it agrees with the eager store exactly when it does not
   revive an expired record.
   */
  lemma LazyWriteRefinesEagerExactly(s: Store, key: OperationKey, fingerprint: string, write: Write, now: int)
    ensures Live(ApplyWrite(s.records, key, fingerprint, write, now), now)
            == ApplyWrite(Live(s.records, now), key, fingerprint, write, now)
            <==> !(key in s.records && Expired(s.records[key], now) && MayWrite(s.records[key], fingerprint, write))
  {
    var after := ApplyWrite(s.records, key, fingerprint, write, now);
    var live := Live(s.records, now);
    if key in s.records && MayWrite(s.records[key], fingerprint, write) {
      assert key in Live(after, now);
      if Expired(s.records[key], now) {
        assert key !in live;
      } else {
        assert live[key] == s.records[key];
        assert Live(after, now) == live[key := after[key]];
      }
    } else {
      assert after == s.records;
    }
  }

  // ----- Bounded removal -------------------------------------------------------------------------

  datatype StoreCall =
    | CallReserve(key: OperationKey, fingerprint: string, staleBefore: int, now: int)
    | CallWrite(key: OperationKey, fingerprint: string, write: Write, now: int)

  function Called(s: Store, call: StoreCall): (r: Store)
    requires ValidStore(s)
    ensures ValidStore(r)
  {
    match call
    case CallReserve(key, fingerprint, staleBefore, now) =>
      ReserveStore(s, key, fingerprint, staleBefore, now).1
    case CallWrite(key, fingerprint, write, now) =>
      s.(records := ApplyWrite(s.records, key, fingerprint, write, now))
  }

  function AfterCalls(s: Store, calls: seq<StoreCall>): (r: Store)
    requires ValidStore(s)
    ensures ValidStore(r)
    decreases |calls|
  {
    if calls == [] then s else AfterCalls(Called(s, calls[0]), calls[1..])
  }

  function Reservations(calls: seq<StoreCall>): (n: nat)
    ensures n <= |calls|
  {
    if calls == [] then 0 else (if calls[0].CallReserve? then 1 else 0) + Reservations(calls[1..])
  }

  /** A sweep drops an expired record that it scans. */
  lemma SweepDrops(s: Store, key: OperationKey, now: int)
    requires ValidStore(s) && key in s.records && Expired(s.records[key], now)
    requires IndexOf(s.order, key) < CLEANUP_BATCH_SIZE
    ensures key !in SweptOrder(s, now)
  {
    var n := Min(CLEANUP_BATCH_SIZE, |s.order|);
    var front, back := s.order[..n], s.order[n..];
    assert s.order == front + back;
    DistinctParts(front, back);
    assert front[IndexOf(s.order, key)] == key;
  }

  /** A sweep moves a key that it does not reach 64 places forward. */
  lemma SweepShifts(s: Store, key: OperationKey, now: int)
    requires ValidStore(s) && key in s.records
    requires IndexOf(s.order, key) >= CLEANUP_BATCH_SIZE
    ensures key in SweptOrder(s, now)
    ensures IndexOf(SweptOrder(s, now), key) + CLEANUP_BATCH_SIZE == IndexOf(s.order, key)
  {
    var p := IndexOf(s.order, key);
    var order := SweptOrder(s, now);
    var i: nat := p - CLEANUP_BATCH_SIZE;
    assert order[i] == key;
    IndexUnique(order, key, i);
  }

  lemma ReserveAdvances(s: Store, key: OperationKey, call: StoreCall)
    requires ValidStore(s) && key in s.records
    requires call.CallReserve? && call.key != key && Expired(s.records[key], call.now)
    ensures var after := Called(s, call);
            if IndexOf(s.order, key) < CLEANUP_BATCH_SIZE then key !in after.records
            else key in after.records && after.records[key] == s.records[key]
                 && IndexOf(after.order, key) + CLEANUP_BATCH_SIZE <= IndexOf(s.order, key)
  {
    if IndexOf(s.order, key) < CLEANUP_BATCH_SIZE {
      SweepDrops(s, key, call.now);
    } else {
      SweepShifts(s, key, call.now);
    }
    var swept := Swept(s, call.now);
    var current := Cleared(s, call.key, call.now);
    var after := Called(s, call);
    if key in swept.order {
      WithoutMovesForward(swept.order, call.key, key);
      assert key in current.order;
      var i := IndexOf(current.order, key);
      assert after.order[i] == key;
      IndexUnique(after.order, key, i);
    } else {
      assert key !in after.records;
    }
  }

  lemma IndexUnique(order: seq<OperationKey>, key: OperationKey, i: nat)
    requires Distinct(order) && i < |order| && order[i] == key
    ensures IndexOf(order, key) == i
  {
  }

  lemma {:induction false} WithoutMovesForward(order: seq<OperationKey>, gone: OperationKey, key: OperationKey)
    requires key in order && key != gone
    ensures key in Without(order, gone) && IndexOf(Without(order, gone), key) <= IndexOf(order, key)
  {
    if order[0] != gone && order[0] != key {
      WithoutMovesForward(order[1..], gone, key);
      assert Without(order, gone)[1..] == Without(order[1..], gone);
    }
  }

  /**
   A record left expired and untouched at position p is gone after p / 64 + 1 reservations, whatever
   other calls come between them.
   */
  lemma {:induction false} ExpiredRecordIsRemoved(s: Store, key: OperationKey, calls: seq<StoreCall>)
    requires ValidStore(s) && key in s.records
    requires forall c :: c in calls ==> c.key != key && Expired(s.records[key], c.now)
    requires Reservations(calls) > IndexOf(s.order, key) / CLEANUP_BATCH_SIZE
    ensures key !in AfterCalls(s, calls).records
    decreases |calls|
  {
    var after := Called(s, calls[0]);
    if calls[0].CallReserve? {
      ReserveAdvances(s, key, calls[0]);
      if IndexOf(s.order, key) < CLEANUP_BATCH_SIZE {
        AbsentStaysAbsent(after, key, calls[1..]);
      } else {
        ExpiredRecordIsRemoved(after, key, calls[1..]);
      }
    } else {
      ExpiredRecordIsRemoved(after, key, calls[1..]);
    }
  }

  // ----- Whole runs ------------------------------------------------------------------------------

  /** A run's reservations never see time go back. */
  ghost predicate InOrder(calls: seq<StoreCall>, from: int) {
    calls == [] || (from <= calls[0].now && InOrder(calls[1..], calls[0].now))
  }

  /** No transition in the run lands on a record that has expired by then. */
  ghost predicate NoRevival(s: Store, calls: seq<StoreCall>)
    requires ValidStore(s)
    decreases |calls|
  {
    calls != [] ==>
      && !(calls[0].CallWrite? && calls[0].key in s.records && Expired(s.records[calls[0].key], calls[0].now)
           && MayWrite(s.records[calls[0].key], calls[0].fingerprint, calls[0].write))
      && NoRevival(Called(s, calls[0]), calls[1..])
  }

  function LazyAnswers(s: Store, calls: seq<StoreCall>): seq<Reservation>
    requires ValidStore(s)
    decreases |calls|
  {
    if calls == [] then []
    else
      var c := calls[0];
      (if c.CallReserve? then [ReserveStore(s, c.key, c.fingerprint, c.staleBefore, c.now).0] else [])
      + LazyAnswers(Called(s, c), calls[1..])
  }

  /** The answers of a store that removes every expired record before each call. */
  function EagerAnswers(m: map<OperationKey, OperationRecord>, calls: seq<StoreCall>): seq<Reservation>
    decreases |calls|
  {
    if calls == [] then []
    else
      var live := Live(m, calls[0].now);
      match calls[0]
      case CallReserve(key, fingerprint, staleBefore, now) =>
        var (answer, after) := EagerReserve(live, key, fingerprint, staleBefore, now);
        [answer] + EagerAnswers(after, calls[1..])
      case CallWrite(key, fingerprint, write, now) =>
        EagerAnswers(ApplyWrite(live, key, fingerprint, write, now), calls[1..])
  }

  /** Over a whole run that revives nothing, lazy and eager expiry cannot be told apart by the answers. */
  lemma {:induction false} LazyRunRefinesEager(
      s: Store, m: map<OperationKey, OperationRecord>, calls: seq<StoreCall>, from: int)
    requires ValidStore(s) && Live(s.records, from) == Live(m, from)
    requires InOrder(calls, from) && NoRevival(s, calls)
    ensures LazyAnswers(s, calls) == EagerAnswers(m, calls)
    decreases |calls|
  {
    if calls != [] {
      var c := calls[0];
      var live := Live(m, c.now);
      LiveLater(s.records, m, from, c.now);
      match c
      case CallReserve(key, fingerprint, staleBefore, now) =>
        LazyReserveRefinesEager(s, key, fingerprint, staleBefore, now);
        var after := EagerReserve(live, key, fingerprint, staleBefore, now).1;
        LazyRunRefinesEager(Called(s, c), after, calls[1..], now);
      case CallWrite(key, fingerprint, write, now) =>
        LazyWriteRefinesEagerExactly(s, key, fingerprint, write, now);
        var after := ApplyWrite(live, key, fingerprint, write, now);
        assert Live(after, now) == after;
        LazyRunRefinesEager(Called(s, c), after, calls[1..], now);
    }
  }

  lemma LiveLater(m: map<OperationKey, OperationRecord>, m': map<OperationKey, OperationRecord>, from: int, to: int)
    requires Live(m, from) == Live(m', from) && from <= to
    ensures Live(m, to) == Live(m', to)
  {
    forall k | k in Live(m, to) ensures k in m' && m'[k] == m[k] {
      assert k in Live(m, from);
    }
    forall k | k in Live(m', to) ensures k in m && m[k] == m'[k] {
      assert k in Live(m', from);
    }
  }

  lemma {:induction false} AbsentStaysAbsent(s: Store, key: OperationKey, calls: seq<StoreCall>)
    requires ValidStore(s) && key !in s.records
    requires forall c :: c in calls ==> c.key != key
    ensures key !in AfterCalls(s, calls).records
    decreases |calls|
  {
    if calls != [] {
      AbsentStaysAbsent(Called(s, calls[0]), key, calls[1..]);
    }
  }

  lemma ScanStep(order: seq<OperationKey>, active: seq<OperationKey>, keys: seq<OperationKey>, scanned: nat)
    requires scanned < |keys| && order == active + keys[scanned..] && Distinct(order)
    ensures keys[scanned] in order && Without(order, keys[scanned]) == active + keys[scanned + 1..]
    ensures order == (active + [keys[scanned]]) + keys[scanned + 1..]
    ensures keys[..scanned + 1] == keys[..scanned] + [keys[scanned]]
  {
    DistinctParts(active, keys[scanned..]);
    assert keys[scanned] in keys[scanned..];
    assert keys[scanned..] == [keys[scanned]] + keys[scanned + 1..];
    assert order == active + [keys[scanned]] + keys[scanned + 1..];
    WithoutSplits(active, keys[scanned], keys[scanned + 1..]);
  }

  lemma LiveKeysStep(keys: seq<OperationKey>, key: OperationKey, records: map<OperationKey, OperationRecord>, now: int)
    requires key in records && forall k :: k in keys ==> k in records
    ensures LiveKeys(keys + [key], records, now)
            == LiveKeys(keys, records, now) + (if Expired(records[key], now) then [] else [key])
  {
    assert (keys + [key])[..|keys|] == keys;
  }

  lemma SweptIs(s: Store, now: int, r: Store)
    requires ValidStore(s) && r.order == SweptOrder(s, now)
    requires forall k :: k in r.records <==> k in r.order
    requires forall k :: k in r.records ==> k in s.records && r.records[k] == s.records[k]
    ensures r == Swept(s, now)
  {
  }

  lemma RotateStep(active: seq<OperationKey>, moved: nat, rest: seq<OperationKey>)
    requires moved < |active|
    ensures Without(active[moved..] + rest + active[..moved], active[moved]) + [active[moved]]
            == active[moved + 1..] + rest + active[..moved + 1]
  {
    var x, front, back := active[moved], active[moved + 1..], active[..moved];
    assert active[moved..] == [x] + front;
    assert [x] + front + rest + back == [x] + (front + rest + back);
    WithoutHead(x, front + rest + back);
    assert front + rest + back + [x] == front + rest + (back + [x]);
    assert active[..moved + 1] == back + [x];
  }

  lemma WithoutHead(x: OperationKey, tail: seq<OperationKey>)
    ensures Without([x] + tail, x) == tail
  {
  }

  lemma PutUnchanged(s: Store, key: OperationKey)
    requires ValidStore(s) && key in s.records
    ensures Put(s, key, s.records[key]) == s
  {
    assert s.records[key := s.records[key]] == s.records;
  }

  // ----- What a run remembers ----------------------------------------------------------------------

  lemma {:induction false} AfterOneMore(s: Store, calls: seq<StoreCall>, c: StoreCall)
    requires ValidStore(s)
    ensures AfterCalls(s, calls + [c]) == Called(AfterCalls(s, calls), c)
    decreases |calls|
  {
    hide Called;
    if calls == [] {
      assert [] + [c] == [c] && [c][1..] == [];
    } else {
      assert (calls + [c])[0] == calls[0] && (calls + [c])[1..] == calls[1..] + [c];
      AfterOneMore(Called(s, calls[0]), calls[1..], c);
    }
  }

  /** What a call leaves of each record: nothing if it has expired, and else the same, but for the call's own. */
  lemma CalledRecords(s: Store, c: StoreCall, key: OperationKey)
    requires ValidStore(s)
    ensures var after := Called(s, c).records;
      && (c.key != key && key in after ==> key in s.records && after[key] == s.records[key])
      && (c.key != key && IsLive(s.records, key, c.now) ==> key in after)
      && (c.CallReserve? && c.key == key ==>
            key in after && Decides(s.records, key, c.fingerprint, c.staleBefore, c.now,
                                    ReserveStore(s, key, c.fingerprint, c.staleBefore, c.now).0, after[key]))
      && (c.CallWrite? ==> after.Keys == s.records.Keys)
      && (c.CallWrite? && c.key == key && key in after ==>
            Writes(s.records[key], c.fingerprint, c.write, c.now, after[key]))
  {
    hide Decides, Live, ReserveRecord, ReserveStore, Writes, ApplyWrite;
    match c
    case CallReserve(k, fingerprint, staleBefore, now) =>
      ReserveForgetsThenDecides(s, k, fingerprint, staleBefore, now);
      DecidesExactly(s.records, k, fingerprint, staleBefore, now);
    case CallWrite(k, fingerprint, write, now) =>
      WritesExactly(s.records, k, fingerprint, write, now);
  }

  /** A call that reports the issue of a draft, from which the record under this key stems. */
  ghost predicate Completes(c: StoreCall, key: OperationKey, r: OperationRecord) {
    && c.CallWrite? && c.key == key && c.fingerprint == r.fingerprint && c.write.WriteCompleted?
    && r.issue == Some(c.write.issue) && r.expiresAt == c.now + RETENTION_MS
  }

  lemma {:induction false} CompletedByCall(calls: seq<StoreCall>, key: OperationKey)
    ensures var records := AfterCalls(Store([], map[]), calls).records;
            key in records && records[key].state == Completed && records[key].issue.Some? ==>
              exists c :: c in calls && Completes(c, key, records[key])
    decreases |calls|
  {
    hide Called, Completes;
    if calls != [] {
      var n := |calls| - 1;
      var front, last := calls[..n], calls[n];
      var s := AfterCalls(Store([], map[]), front);
      assert calls == front + [last];
      AfterOneMore(Store([], map[]), front, last);
      CompletedByCall(front, key);
      CompletedStep(s, last, key);
    }
  }

  lemma CompletedStep(s: Store, c: StoreCall, key: OperationKey)
    requires ValidStore(s)
    ensures var after := Called(s, c).records;
            key in after && after[key].state == Completed && after[key].issue.Some? ==>
              Completes(c, key, after[key]) || (key in s.records && after[key] == s.records[key])
  {
    hide Called;
    CalledRecords(s, c, key);
  }

  /**
   An issue is replayed only to the draft that it was reported for, by a call of the run, and while that report
   is kept.
   */
  lemma ReplayedWasCompleted(calls: seq<StoreCall>, key: OperationKey, fingerprint: string, staleBefore: int, now: int,
                             issue: Issue)
    requires ReserveStore(AfterCalls(Store([], map[]), calls), key, fingerprint, staleBefore, now).0 == Replayed(issue)
    ensures exists c :: c in calls && c.CallWrite? && c.key == key && c.fingerprint == fingerprint
              && c.write == WriteCompleted(issue) && now < c.now + RETENTION_MS
  {
    hide Called, Live, ReserveRecord, ReserveStore, AfterCalls;
    var s := AfterCalls(Store([], map[]), calls);
    ReserveForgetsThenDecides(s, key, fingerprint, staleBefore, now);
    DecidesExactly(s.records, key, fingerprint, staleBefore, now);
    CompletedByCall(calls, key);
    var c :| c in calls && Completes(c, key, s.records[key]);
  }

  lemma {:induction false} CompletedStays(s: Store, calls: seq<StoreCall>, key: OperationKey)
    requires ValidStore(s) && key in s.records && s.records[key].state == Completed && s.records[key].issue.Some?
    requires forall c :: c in calls ==> c.now < s.records[key].expiresAt
    ensures var after := AfterCalls(s, calls).records; key in after && after[key] == s.records[key]
    decreases |calls|
  {
    hide Called;
    if calls != [] {
      CalledRecords(s, calls[0], key);
      CompletedStays(Called(s, calls[0]), calls[1..], key);
    }
  }

  /** And it is replayed to that draft for as long as the report is kept, whatever calls come between. */
  lemma ReplayedWhileKept(s: Store, key: OperationKey, fingerprint: string, issue: Issue, at: int,
                          calls: seq<StoreCall>, staleBefore: int, now: int)
    requires ValidStore(s) && key in s.records && s.records[key].fingerprint == fingerprint
    requires s.records[key].state in {Pending, Ambiguous}
    requires (forall c :: c in calls ==> c.now < at + RETENTION_MS) && now < at + RETENTION_MS
    ensures var after := AfterCalls(Called(s, CallWrite(key, fingerprint, WriteCompleted(issue), at)), calls);
            ReserveStore(after, key, fingerprint, staleBefore, now).0 == Replayed(issue)
  {
    hide Called, Live, ReserveRecord, ReserveStore, AfterCalls;
    var s1 := Called(s, CallWrite(key, fingerprint, WriteCompleted(issue), at));
    CalledRecords(s, CallWrite(key, fingerprint, WriteCompleted(issue), at), key);
    CompletedStays(s1, calls, key);
    var after := AfterCalls(s1, calls);
    ReserveForgetsThenDecides(after, key, fingerprint, staleBefore, now);
    DecidesExactly(after.records, key, fingerprint, staleBefore, now);
  }

  /** The key is taken by this draft until then, at least. */
  ghost predicate TakenUntil(s: Store, key: OperationKey, fingerprint: string, until: int) {
    key in s.records && s.records[key].fingerprint == fingerprint && until <= s.records[key].expiresAt
  }

  lemma {:induction false} StaysTaken(s: Store, calls: seq<StoreCall>, key: OperationKey, fingerprint: string, at: int,
                                      until: int)
    requires ValidStore(s) && TakenUntil(s, key, fingerprint, until) && until <= at + RETENTION_MS
    requires InOrder(calls, at) && forall c :: c in calls ==> c.now < until
    ensures TakenUntil(AfterCalls(s, calls), key, fingerprint, until)
    decreases |calls|
  {
    hide Called;
    if calls != [] {
      var c := calls[0];
      CalledRecords(s, c, key);
      StaysTaken(Called(s, c), calls[1..], key, fingerprint, c.now, until);
    }
  }

  /**
   Once a draft has been let in, any other draft under its identifier is in conflict with it for the whole
   retention, whatever calls come between; the draft itself never is.
   */
  lemma ConflictExactly(s: Store, key: OperationKey, fingerprint: string, staleBefore: int, at: int,
                        calls: seq<StoreCall>, other: string, staleBefore': int, now: int)
    requires ValidStore(s) && ReserveStore(s, key, fingerprint, staleBefore, at).0 == New
    requires InOrder(calls, at) && (forall c :: c in calls ==> c.now < at + RETENTION_MS) && now < at + RETENTION_MS
    ensures var after := AfterCalls(ReserveStore(s, key, fingerprint, staleBefore, at).1, calls);
            ReserveStore(after, key, other, staleBefore', now).0 == Conflict <==> other != fingerprint
  {
    hide Called, Live, ReserveRecord, ReserveStore, AfterCalls;
    var s1 := ReserveStore(s, key, fingerprint, staleBefore, at).1;
    ReserveForgetsThenDecides(s, key, fingerprint, staleBefore, at);
    DecidesExactly(s.records, key, fingerprint, staleBefore, at);
    StaysTaken(s1, calls, key, fingerprint, at, at + RETENTION_MS);
    var after := AfterCalls(s1, calls);
    ReserveForgetsThenDecides(after, key, other, staleBefore', now);
    DecidesExactly(after.records, key, other, staleBefore', now);
  }

  // ----- The class ---------------------------------------------------------------------------------

  class MemoryOperationStore {
    var order: seq<OperationKey>
    var records: map<OperationKey, OperationRecord>

    ghost function Contents(): Store
      reads this
    {
      Store(order, records)
    }

    ghost predicate Valid()
      reads this
    {
      ValidStore(Contents())
    }

    constructor ()
      ensures Valid() && Contents() == Store([], map[])
    {
      order, records := [], map[];
    }

    method Reserve(key: OperationKey, fingerprint: string, staleBefore: int, now: int) returns (answer: Reservation)
      requires Valid()
      modifies this
      ensures Valid()
      ensures (answer, Contents()) == ReserveStore(old(Contents()), key, fingerprint, staleBefore, now)
      ensures key in records && Decides(old(records), key, fingerprint, staleBefore, now, answer, records[key])
      ensures forall k :: k in records && k != key ==> k in old(records) && records[k] == old(records)[k]
      ensures forall k :: k in old(records) && k !in records ==> old(records)[k].expiresAt <= now
    {
      hide Decides, Live;
      ReserveForgetsThenDecides(Contents(), key, fingerprint, staleBefore, now);
      DecidesExactly(records, key, fingerprint, staleBefore, now);
      CleanupExpired(now);
      if key in records && Expired(records[key], now) {
        DeleteKey(key);
      }
      assert Contents() == Cleared(old(Contents()), key, now);
      if key !in records {
        SetRecord(key, OperationRecord(now + RETENTION_MS, fingerprint, None, Pending, now));
        return New;
      }
      var record := records[key];
      PutUnchanged(Contents(), key);
      if record.fingerprint != fingerprint {
        return Conflict;
      }
      if record.state == Completed && record.issue.Some? {
        return Replayed(record.issue.value);
      }
      if record.state == Retryable {
        SetRecord(key, record.(state := Pending, updatedAt := now, expiresAt := now + RETENTION_MS));
        return New;
      }
      if record.state == Ambiguous {
        return StillAmbiguous;
      }
      if record.updatedAt <= staleBefore {
        SetRecord(key, record.(state := Ambiguous, updatedAt := now));
        return StillAmbiguous;
      }
      answer := StillPending;
    }

    method SetRecord(key: OperationKey, record: OperationRecord)
      requires Valid()
      modifies this
      ensures Valid() && Contents() == Put(old(Contents()), key, record)
    {
      if key !in records {
        order := order + [key];
      }
      records := records[key := record];
    }

    method Transition(key: OperationKey, fingerprint: string, write: Write, now: int)
      requires Valid()
      modifies this`records
      ensures Valid() && records == ApplyWrite(old(records), key, fingerprint, write, now)
      ensures records.Keys == old(records).Keys && forall k :: k in records && k != key ==>
          records[k] == old(records)[k]
      ensures key in records ==> Writes(old(records)[key], fingerprint, write, now, records[key])
    {
      WritesExactly(records, key, fingerprint, write, now);
      if key !in records || !MayWrite(records[key], fingerprint, write) {
        return;
      }
      records := records[key := Written(write, records[key], now)];
    }

    method DeleteKey(key: OperationKey)
      requires Valid() && key in records
      modifies this
      ensures Valid() && Contents() == Delete(old(Contents()), key)
    {
      order, records := Without(order, key), records - {key};
    }

    method CleanupExpired(now: int)
      requires Valid()
      modifies this
      ensures Valid() && Contents() == Swept(old(Contents()), now)
    {
      ghost var before := Contents();
      ghost var n := Min(CLEANUP_BATCH_SIZE, |order|);
      var active := DropExpired(now);
      assert forall k :: k in records <==> k in active + before.order[n..];
      MoveToBack(active, before.order[n..]);
      SweptIs(before, now, Contents());
    }

    method DropExpired(now: int) returns (active: seq<OperationKey>)
      requires Valid()
      modifies this
      ensures var n := Min(CLEANUP_BATCH_SIZE, |old(order)|);
              active == LiveKeys(old(order)[..n], old(records), now) && order == active + old(order)[n..]
      ensures Valid()
      ensures forall k :: k in records ==> k in old(records) && records[k] == old(records)[k]
    {
      var keys := order;
      active := [];
      var scanned := 0;
      ghost var before := records;
      while scanned < |keys| && scanned < CLEANUP_BATCH_SIZE
        invariant 0 <= scanned <= Min(CLEANUP_BATCH_SIZE, |keys|)
        invariant active == LiveKeys(keys[..scanned], before, now)
        invariant order == active + keys[scanned..]
        invariant records.Keys <= before.Keys && forall k :: k in records ==> records[k] == before[k]
        invariant Valid()
      {
        var key := keys[scanned];
        ScanStep(order, active, keys, scanned);
        LiveKeysStep(keys[..scanned], key, before, now);
        scanned := scanned + 1;
        if Expired(records[key], now) {
          DeleteKey(key);
        } else {
          active := active + [key];
        }
      }
      assert scanned == Min(CLEANUP_BATCH_SIZE, |keys|);
    }

    method MoveToBack(active: seq<OperationKey>, ghost rest: seq<OperationKey>)
      requires order == active + rest
      modifies this`order
      ensures order == rest + active
    {
      var moved := 0;
      while moved < |active|
        invariant 0 <= moved <= |active|
        invariant order == active[moved..] + rest + active[..moved]
      {
        RotateStep(active, moved, rest);
        order := Without(order, active[moved]) + [active[moved]];
        moved := moved + 1;
      }
    }
  }
}
