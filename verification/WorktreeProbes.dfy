/** Coalesced filesystem probes. */
module WorktreeProbes {
  import opened Common

  // At most sixteen operations are under way, one for each key, and everyone who asks for a key while its
  // operation runs shares the result, unless an abort settles them first.

  const MAX_PENDING_PROBES := 16

  /** Filesystem, operation and resolved path. */
  datatype Key = Key(fileSystem: nat, operation: string, path: string)

  /** One run of an operation. */
  datatype Probe = Probe(id: nat, key: Key)

  datatype Signal = Signal(id: nat)

  datatype Subscriber = Subscriber(id: nat, probe: Probe, signal: Option<Signal>)

  datatype Outcome = Resolved(value: string) | Rejected(error: string) | Aborted

  datatype Settlement = Settlement(subscriber: nat, outcome: Outcome)

  datatype Reply = Waits(subscriber: nat) | AtCapacity | AlreadyAborted

  /**
   The pending probes, the subscribers of all of them in the order they came, the operations that have not
   finished, the signals that have been aborted, and every call of a subscriber's resolve or reject so far.
   */
  datatype State = State(pending: map<Key, Probe>, subscribers: seq<Subscriber>, running: set<Probe>,
                         aborted: set<Signal>,
                         log: seq<Settlement>, nextProbe: nat, nextSubscriber: nat)

  const START := State(map[], [], {}, {}, [], 0, 0)

  // ----- What the operations do ----------------------------------------------------------------------------------

  predicate IsAborted(s: State, signal: Option<Signal>) {
    signal.Some? && signal.value in s.aborted
  }

  /** Someone asks for a key. */
  function SubscribeIn(s: State, key: Key, signal: Option<Signal>): (State, Reply) {
    if IsAborted(s, signal) then (s, AlreadyAborted)
    else if key !in s.pending && |s.pending| >= MAX_PENDING_PROBES then (s, AtCapacity)
    else
      var started := if key in s.pending then s else Started(s, key);
      var subscriber := Subscriber(s.nextSubscriber, started.pending[key], signal);
      (started.(subscribers := s.subscribers + [subscriber], nextSubscriber := s.nextSubscriber + 1),
       Waits(subscriber.id))
  }

  function Started(s: State, key: Key): State {
    var probe := Probe(s.nextProbe, key);
    s.(pending := s.pending[key := probe], running := s.running + {probe}, nextProbe := s.nextProbe + 1)
  }

  type Test = Subscriber -> bool

  function ByProbe(probe: Probe): Test {
    (x: Subscriber) => x.probe == probe
  }

  function BySignal(signal: Signal): Test {
    (x: Subscriber) => x.signal == Some(signal)
  }

  /** Those for which a test holds, or those for which it does not, in order. */
  function Only(subscribers: seq<Subscriber>, test: Test, holds: bool): (r: seq<Subscriber>)
    ensures forall x :: x in r <==> x in subscribers && test(x) == holds
  {
    if subscribers == [] then []
    else
      var n := |subscribers| - 1;
      var front, last := Only(subscribers[..n], test, holds), subscribers[n];
      assert subscribers == subscribers[..n] + [last];
      if test(last) == holds then front + [last] else front
  }

  function Settlements(subscribers: seq<Subscriber>, outcome: Outcome): (r: seq<Settlement>)
    ensures |r| == |subscribers| && forall i :: 0 <= i < |r| ==> r[i] == Settlement(subscribers[i].id, outcome)
  {
    seq(|subscribers|, i requires 0 <= i < |subscribers| => Settlement(subscribers[i].id, outcome))
  }

  /** Those for which the test holds are told the outcome, and nobody else is told anything. */
  ghost predicate Tells(before: seq<Settlement>, after: seq<Settlement>, subscribers: seq<Subscriber>, test: Test,
                        outcome: Outcome) {
    && before <= after
    && forall t :: t in after <==>
         t in before || exists x :: x in subscribers && test(x) && t == Settlement(x.id, outcome)
  }

  lemma SettlementsTell(before: seq<Settlement>, subscribers: seq<Subscriber>, test: Test, outcome: Outcome)
    ensures Tells(before, before + Settlements(Only(subscribers, test, true), outcome), subscribers, test, outcome)
  {
    var those := Only(subscribers, test, true);
    var told := Settlements(those, outcome);
    forall t ensures t in told <==> exists x :: x in subscribers && test(x) && t == Settlement(x.id, outcome) {
      if x :| x in subscribers && test(x) && t == Settlement(x.id, outcome) {
        assert x in those;
        var i :| 0 <= i < |those| && those[i] == x;
        assert told[i] == t;
      }
      if t in told {
        var i :| 0 <= i < |told| && told[i] == t;
        assert those[i] in those;
      }
    }
  }

  /** The operation of a probe comes to its end. */
  function FinishIn(s: State, probe: Probe, outcome: Outcome): State {
    s.(pending := if probe.key in s.pending && s.pending[probe.key] == probe then s.pending - {probe.key}
        else s.pending,
       running := s.running - {probe},
       log := s.log + Settlements(Only(s.subscribers, ByProbe(probe), true), outcome),
       subscribers := Only(s.subscribers, ByProbe(probe), false))
  }

  /** A signal is aborted. */
  function AbortIn(s: State, signal: Signal): State {
    s.(aborted := s.aborted + {signal},
       log := s.log + Settlements(Only(s.subscribers, BySignal(signal), true), Aborted),
       subscribers := Only(s.subscribers, BySignal(signal), false))
  }

  class ProbeTable {
    var pending: map<Key, Probe>
    var subscribers: seq<Subscriber>
    var running: set<Probe>
    var aborted: set<Signal>
    var log: seq<Settlement>
    var nextProbe: nat
    var nextSubscriber: nat

    function Contents(): State
      reads this
    {
      State(pending, subscribers, running, aborted, log, nextProbe, nextSubscriber)
    }

    constructor ()
      ensures Contents() == START
    {
      pending, subscribers, running, aborted, log, nextProbe, nextSubscriber := map[], [], {}, {}, [], 0, 0;
    }

    method Subscribe(key: Key, signal: Option<Signal>) returns (r: Reply)
      modifies this
      ensures (Contents(), r) == SubscribeIn(old(Contents()), key, signal)
      ensures r == AlreadyAborted <==> signal.Some? && signal.value in old(aborted)
      ensures r == AtCapacity <==>
                !(signal.Some? && signal.value in old(aborted)) && key !in old(pending) && |old(pending)| >= 16
      ensures !r.Waits? ==> Contents() == old(Contents())
      ensures r.Waits? ==>
        && r.subscriber == old(nextSubscriber) && key in pending && log == old(log) && aborted == old(aborted)
        && subscribers == old(subscribers) + [Subscriber(r.subscriber, pending[key], signal)]
        && pending == old(pending)[key := pending[key]]
        && (key in old(pending) ==> pending[key] == old(pending)[key] && running == old(running))
        && (key !in old(pending) ==>
              pending[key] == Probe(old(nextProbe), key) && running == old(running) + {pending[key]})
    {
      if signal.Some? && signal.value in aborted {
        return AlreadyAborted;
      }
      if key !in pending {
        if |pending| >= MAX_PENDING_PROBES {
          return AtCapacity;
        }
        var probe := Probe(nextProbe, key);
        pending, running, nextProbe := pending[key := probe], running + {probe}, nextProbe + 1;
      }
      var subscriber := Subscriber(nextSubscriber, pending[key], signal);
      subscribers, nextSubscriber := subscribers + [subscriber], nextSubscriber + 1;
      r := Waits(subscriber.id);
    }

    /** Settles the probe: first it makes room, then it tells everyone who still waits. */
    method SettleProbe(probe: Probe, outcome: Outcome)
      modifies this
      ensures Contents() == FinishIn(old(Contents()), probe, outcome)
      ensures running == old(running) - {probe} && aborted == old(aborted)
      ensures forall k :: k in pending <==> k in old(pending) && !(k == probe.key && old(pending)[k] == probe)
      ensures forall k :: k in pending ==> pending[k] == old(pending)[k]
      ensures forall x :: x in subscribers <==> x in old(subscribers) && x.probe != probe
      ensures Tells(old(log), log, old(subscribers), ByProbe(probe), outcome)
    {
      if probe.key in pending && pending[probe.key] == probe {
        pending := pending - {probe.key};
      }
      running := running - {probe};
      SettleThose(ByProbe(probe), outcome);
    }

    method Abort(signal: Signal)
      modifies this
      ensures Contents() == AbortIn(old(Contents()), signal)
      ensures aborted == old(aborted) + {signal} && pending == old(pending) && running == old(running)
      ensures forall x :: x in subscribers <==> x in old(subscribers) && x.signal != Some(signal)
      ensures Tells(old(log), log, old(subscribers), BySignal(signal), Aborted)
    {
      aborted := aborted + {signal};
      SettleThose(BySignal(signal), Aborted);
    }

    method SettleThose(test: Test, outcome: Outcome)
      modifies this`subscribers, this`log
      ensures subscribers == Only(old(subscribers), test, false)
      ensures log == old(log) + Settlements(Only(old(subscribers), test, true), outcome)
      ensures Tells(old(log), log, old(subscribers), test, outcome)
    {
      SettlementsTell(log, subscribers, test, outcome);
      var left: seq<Subscriber> := [];
      var all := subscribers;
      ghost var before, chosen: seq<Subscriber> := log, [];
      for i := 0 to |all|
        invariant left == Only(all[..i], test, false) && chosen == Only(all[..i], test, true)
        invariant log == before + Settlements(chosen, outcome)
      {
        OnlyStep(all, i, test);
        if test(all[i]) {
          SettlementsAppend(before, chosen, all[i], outcome);
          chosen := chosen + [all[i]];
          log := log + [Settlement(all[i].id, outcome)];
        } else {
          left := left + [all[i]];
        }
      }
      assert all[..|all|] == all;
      subscribers := left;
    }
  }

  lemma SettlementsAppend(before: seq<Settlement>, chosen: seq<Subscriber>, x: Subscriber, outcome: Outcome)
    ensures before + Settlements(chosen + [x], outcome) == before + Settlements(chosen, outcome)
        + [Settlement(x.id, outcome)]
  {
  }

  lemma OnlyStep(all: seq<Subscriber>, i: nat, test: Test)
    requires i < |all|
    ensures Only(all[..i + 1], test, test(all[i])) == Only(all[..i], test, test(all[i])) + [all[i]]
    ensures Only(all[..i + 1], test, !test(all[i])) == Only(all[..i], test, !test(all[i]))
  {
    assert all[..i + 1][..i] == all[..i];
  }

  // ----- What always holds -----------------------------------------------------------------------------------------

  ghost function Ids(subscribers: seq<Subscriber>): seq<nat> {
    seq(|subscribers|, i requires 0 <= i < |subscribers| => subscribers[i].id)
  }

  ghost function Told(log: seq<Settlement>): seq<nat> {
    seq(|log|, i requires 0 <= i < |log| => log[i].subscriber)
  }

  /** The pending probes are the running operations, one for each key, and at most sixteen. */
  ghost predicate SingleFlight(s: State) {
    && |s.pending| <= MAX_PENDING_PROBES
    && (forall p :: p in s.running ==> p.key in s.pending && s.pending[p.key] == p && p.id < s.nextProbe)
    && (forall k :: k in s.pending ==> s.pending[k].key == k && s.pending[k] in s.running)
  }

  /** Everyone who was let in has been told exactly once, or waits for a running operation with a signal not aborted. */
  ghost predicate Accounted(s: State) {
    && Distinct(Told(s.log) + Ids(s.subscribers))
    && (forall id: nat :: id in Told(s.log) + Ids(s.subscribers) <==> id < s.nextSubscriber)
    && (forall x :: x in s.subscribers ==> x.probe in s.running && !IsAborted(s, x.signal))
  }

  ghost predicate Inv(s: State) {
    SingleFlight(s) && Accounted(s)
  }

  datatype Event = Subscribe(key: Key, signal: Option<Signal>) | Finish(probe: Probe, outcome: Outcome)
      | Abort(source: Signal)

  /** Requests and aborts come at any time; an operation that runs comes to an end once. */
  ghost predicate Enabled(s: State, e: Event) {
    e.Finish? ==> e.probe in s.running && !e.outcome.Aborted?
  }

  function After(s: State, e: Event): State {
    match e
    case Subscribe(key, signal) => SubscribeIn(s, key, signal).0
    case Finish(probe, outcome) => FinishIn(s, probe, outcome)
    case Abort(signal) => AbortIn(s, signal)
  }

  lemma StepKeepsSingleFlight(s: State, e: Event)
    requires SingleFlight(s) && Enabled(s, e)
    ensures SingleFlight(After(s, e))
  {
    if e.Finish? && e.probe.key in s.pending {
      assert |s.pending - {e.probe.key}| <= |s.pending|;
    }
  }

  // ----- Telling everyone once ---------------------------------------------------------------------------------------

  lemma {:induction false} DistinctCounts<T>(s: seq<T>)
    ensures Distinct(s) <==> forall x :: multiset(s)[x] <= 1
  {
    if s != [] {
      var n := |s| - 1;
      var front, last := s[..n], s[n];
      assert s == front + [last];
      DistinctCounts(front);
      if Distinct(s) {
        assert Distinct(front);
        assert last !in front;
      } else if Distinct(front) {
        var i, j :| 0 <= i < j < |s| && s[i] == s[j];
        assert j == n && s[i] == front[i];
        assert last in multiset(front);
        assert multiset(s)[last] >= 2;
      } else {
        var x :| multiset(front)[x] > 1;
        assert multiset(s)[x] > 1;
      }
    }
  }

  lemma {:induction false} PartitionKeepsIds(subscribers: seq<Subscriber>, test: Test)
    ensures multiset(Ids(Only(subscribers, test, true))) + multiset(Ids(Only(subscribers, test, false))) ==
        multiset(Ids(subscribers))
    decreases |subscribers|
  {
    if subscribers != [] {
      var n := |subscribers| - 1;
      var front, last := subscribers[..n], subscribers[n];
      PartitionKeepsIds(front, test);
      assert Ids(subscribers) == Ids(front) + [last.id];
      var chosen := Only(front, test, test(last));
      assert Ids(chosen + [last]) == Ids(chosen) + [last.id];
    }
  }

  /** Settling those for whom a test holds moves them from the waiting to the told. */
  lemma SettlingKeepsIds(log: seq<Settlement>, subscribers: seq<Subscriber>, test: Test, outcome: Outcome)
    ensures var told := Told(log + Settlements(Only(subscribers, test, true), outcome));
            multiset(told + Ids(Only(subscribers, test, false))) == multiset(Told(log) + Ids(subscribers))
  {
    PartitionKeepsIds(subscribers, test);
    var chosen := Only(subscribers, test, true);
    assert Told(log + Settlements(chosen, outcome)) == Told(log) + Ids(chosen);
  }

  lemma SameElements(a: seq<nat>, b: seq<nat>)
    requires multiset(a) == multiset(b) && Distinct(a)
    ensures Distinct(b) && forall x :: x in a <==> x in b
  {
    DistinctCounts(a);
    DistinctCounts(b);
    assert forall x :: x in a <==> x in multiset(a);
    assert forall x :: x in b <==> x in multiset(b);
  }

  lemma SettlingKeepsAccount(s: State, test: Test, outcome: Outcome)
    requires Accounted(s)
    ensures var told := Told(s.log + Settlements(Only(s.subscribers, test, true), outcome));
            var ids := told + Ids(Only(s.subscribers, test, false));
            Distinct(ids) && forall id: nat :: id in ids <==> id < s.nextSubscriber
  {
    SettlingKeepsIds(s.log, s.subscribers, test, outcome);
    SameElements(Told(s.log) + Ids(s.subscribers),
                 Told(s.log + Settlements(Only(s.subscribers, test, true), outcome))
                     + Ids(Only(s.subscribers, test, false)));
  }

  lemma SubscribingKeepsAccount(s: State, key: Key, signal: Option<Signal>)
    requires Inv(s)
    ensures Accounted(SubscribeIn(s, key, signal).0)
  {
    var s' := SubscribeIn(s, key, signal).0;
    if s' != s {
      var last := s'.subscribers[|s.subscribers|];
      var ids := Told(s.log) + Ids(s.subscribers);
      assert Told(s'.log) + Ids(s'.subscribers) == ids + [last.id];
      DistinctConcat(ids, [last.id]);
      assert forall x :: x in s'.subscribers <==> x in s.subscribers || x == last;
    }
  }

  lemma StepKeepsInv(s: State, e: Event)
    requires Inv(s) && Enabled(s, e)
    ensures Inv(After(s, e))
  {
    StepKeepsSingleFlight(s, e);
    match e {
      case Subscribe(key, signal) => SubscribingKeepsAccount(s, key, signal);
      case Finish(probe, outcome) => SettlingKeepsAccount(s, ByProbe(probe), outcome);
      case Abort(signal) => SettlingKeepsAccount(s, BySignal(signal), Aborted);
    }
  }

  ghost predicate Run(states: seq<State>, events: seq<Event>) {
    && |states| == |events| + 1 && states[0] == START
    && forall i :: 0 <= i < |events| ==> Enabled(states[i], events[i]) && states[i + 1] == After(states[i], events[i])
  }

  /**
   However requests, aborts and results interleave: never more than sixteen operations, never two for one key,
   and of those let in each has been told once or waits for an operation that runs; none is told twice or lost.
   */
  lemma {:induction false} RunKeepsInv(states: seq<State>, events: seq<Event>)
    requires Run(states, events)
    ensures Inv(states[|events|])
    decreases |events|
  {
    if events != [] {
      var n := |events| - 1;
      RunKeepsInv(states[..n + 1], events[..n]);
      StepKeepsInv(states[n], events[n]);
    }
  }

  lemma OneOperationPerKey(s: State, p: Probe, q: Probe)
    requires Inv(s) && p in s.running && q in s.running && p.key == q.key
    ensures p == q
  {
  }

  lemma AtMostSixteen(s: State)
    requires Inv(s)
    ensures |s.running| == |s.pending| <= MAX_PENDING_PROBES
  {
    KeysOfProbes(s.running);
    assert (set p | p in s.running :: p.key) == s.pending.Keys;
    assert |s.pending| == |s.pending.Keys|;
  }

  lemma {:induction false} KeysOfProbes(probes: set<Probe>)
    requires forall p, q :: p in probes && q in probes && p.key == q.key ==> p == q
    ensures |set p | p in probes :: p.key| == |probes|
  {
    if probes != {} {
      var p :| p in probes;
      var rest := probes - {p};
      KeysOfProbes(rest);
      assert (set q | q in probes :: q.key) == (set q | q in rest :: q.key) + {p.key};
    }
  }

  /** An abort settles those with its signal and nobody else, and stops no operation. */
  lemma AbortSettlesOnlyItsOwn(s: State, signal: Signal)
    requires Inv(s)
    ensures var s' := AbortIn(s, signal);
            && s'.pending == s.pending && s'.running == s.running
            && (forall x :: x in s'.subscribers <==> x in s.subscribers && x.signal != Some(signal))
            && s.log <= s'.log
            && (forall t :: t in s'.log[|s.log|..] <==>
                  exists x :: x in s.subscribers && x.signal == Some(signal) && t == Settlement(x.id, Aborted))
  {
    ToldAre(Only(s.subscribers, BySignal(signal), true), Aborted);
    assert AbortIn(s, signal).log[|s.log|..] == Settlements(Only(s.subscribers, BySignal(signal), true), Aborted);
  }

  /** The end of an operation settles all who still wait for it with its result, and makes room for its key. */
  lemma FinishSettlesTheRest(s: State, probe: Probe, outcome: Outcome)
    requires Inv(s) && probe in s.running
    ensures var s' := FinishIn(s, probe, outcome);
            && probe.key !in s'.pending && s'.running == s.running - {probe}
            && (forall x :: x in s'.subscribers <==> x in s.subscribers && x.probe != probe)
            && s.log <= s'.log
            && (forall t :: t in s'.log[|s.log|..] <==>
                  exists x :: x in s.subscribers && x.probe == probe && t == Settlement(x.id, outcome))
  {
    ToldAre(Only(s.subscribers, ByProbe(probe), true), outcome);
    assert FinishIn(s, probe, outcome).log[|s.log|..] ==
        Settlements(Only(s.subscribers, ByProbe(probe), true), outcome);
  }

  lemma ToldAre(subscribers: seq<Subscriber>, outcome: Outcome)
    ensures forall t ::
      t in Settlements(subscribers, outcome) <==> exists x :: x in subscribers && t == Settlement(x.id, outcome)
  {
    var told := Settlements(subscribers, outcome);
    forall t | t in told ensures exists x :: x in subscribers && t == Settlement(x.id, outcome) {
      var i :| 0 <= i < |told| && told[i] == t;
      assert subscribers[i] in subscribers;
    }
    forall x | x in subscribers ensures Settlement(x.id, outcome) in told {
      var i :| 0 <= i < |subscribers| && subscribers[i] == x;
      assert told[i] == Settlement(x.id, outcome);
    }
  }

  /** A request is turned away exactly if its signal is aborted, or it needs a seventeenth operation. */
  lemma TurnedAwayExactly(s: State, key: Key, signal: Option<Signal>)
    requires Inv(s)
    ensures var (s', r) := SubscribeIn(s, key, signal);
            && (r == AlreadyAborted <==> IsAborted(s, signal))
            && (r == AtCapacity <==> !IsAborted(s, signal) && |s.running| == MAX_PENDING_PROBES
                                     && forall p :: p in s.running ==> p.key != key)
            && (!r.Waits? ==> s' == s)
            && (r.Waits? && (exists p :: p in s.running && p.key == key) ==> s'.running == s.running)
  {
    AtMostSixteen(s);
    assert key in s.pending <==> exists p :: p in s.running && p.key == key;
  }
}
