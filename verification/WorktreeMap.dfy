/**
 Mapping a list with a few workers at a time: each worker takes the next index, waits for its result, and
 takes another, whatever the others do meanwhile.
 */
module WorktreeMap {
  import opened Common

  /** A worker between two turns: about to look for work, waiting for the result at an index, or gone. */
  datatype Worker = Ready | Waiting(index: nat) | Finished | Stopped

  /** The results so far, the next index to take, the workers, and the indexes in the order they were taken. */
  datatype State<R> = State(results: seq<Option<R>>, nextIndex: nat, workers: seq<Worker>, taken: seq<nat>)

  function Start<R>(length: nat, concurrency: nat): State<R> {
    State(seq(length, i => None), 0, seq(Min(concurrency, length), i => Ready), [])
  }

  // ----- What the turns do -----------------------------------------------------------------------------------------

  /** A worker looks for work: there is none left, the load has been aborted, or it takes the next index. */
  function LookIn<R>(s: State<R>, w: nat, aborted: bool): State<R>
    requires w < |s.workers|
  {
    if s.nextIndex >= |s.results| then s.(workers := s.workers[w := Finished])
    else if aborted then s.(workers := s.workers[w := Stopped])
    else s.(workers := s.workers[w := Waiting(s.nextIndex)], nextIndex := s.nextIndex + 1,
            taken := s.taken + [s.nextIndex])
  }

  /** The result that a worker waits for comes in; None if its computation fails. */
  function ReceiveIn<R>(s: State<R>, w: nat, value: Option<R>): State<R>
    requires w < |s.workers| && s.workers[w].Waiting? && s.workers[w].index < |s.results|
  {
    if value.None? then s.(workers := s.workers[w := Stopped])
    else s.(results := s.results[s.workers[w].index := value], workers := s.workers[w := Ready])
  }

  class ConcurrentMap<R> {
    const results: array<Option<R>>
    var nextIndex: nat
    var workers: seq<Worker>
    ghost var taken: seq<nat>

    ghost function Contents(): State<R>
      reads this, results
    {
      State(results[..], nextIndex, workers, taken)
    }

    constructor (length: nat, concurrency: nat)
      ensures Contents() == Start(length, concurrency) && fresh(results)
    {
      results := new Option<R>[length](i => None);
      nextIndex, taken := 0, [];
      workers := seq(Min(concurrency, length), i => Ready);
      new;
      assert results[..] == Start<R>(length, concurrency).results;
    }

    method Look(w: nat, aborted: bool)
      requires w < |workers|
      modifies this
      ensures Contents() == LookIn(old(Contents()), w, aborted)
      ensures workers == old(workers)[w := workers[w]] && results[..] == old(results[..])
      ensures workers[w] == Finished <==> old(nextIndex) >= results.Length
      ensures workers[w] == Stopped <==> old(nextIndex) < results.Length && aborted
      ensures old(nextIndex) < results.Length && !aborted <==> workers[w] == Waiting(old(nextIndex))
      ensures nextIndex == old(nextIndex) + if workers[w].Waiting? then 1 else 0
    {
      if nextIndex >= results.Length {
        workers := workers[w := Finished];
      } else if aborted {
        workers := workers[w := Stopped];
      } else {
        var index := nextIndex;
        nextIndex := nextIndex + 1;
        workers, taken := workers[w := Waiting(index)], taken + [index];
      }
    }

    method Receive(w: nat, value: Option<R>)
      requires w < |workers| && workers[w].Waiting? && workers[w].index < results.Length
      modifies this`workers, results
      ensures Contents() == ReceiveIn(old(Contents()), w, value)
      ensures workers == old(workers)[w := if value == None then Stopped else Ready]
      ensures forall i :: 0 <= i < results.Length ==>
                results[i] == if value.Some? && old(workers[w]) == Waiting(i) then value else old(results[i])
    {
      if value.None? {
        workers := workers[w := Stopped];
      } else {
        results[workers[w].index] := value;
        workers := workers[w := Ready];
      }
    }
  }

  // ----- Any interleaving --------------------------------------------------------------------------------------------

  datatype Event<R> = Look(w: nat, aborted: bool) | Receive(w: nat, value: Option<R>)

  /** The worker function gives `f(i)` for the i-th value, or fails. */
  ghost predicate Enabled<R>(s: State<R>, e: Event<R>, f: nat -> R) {
    match e
    case Look(w, _) => w < |s.workers| && s.workers[w].Ready?
    case Receive(w, value) =>
      && w < |s.workers| && s.workers[w].Waiting? && s.workers[w].index < |s.results|
      && (value.Some? ==> value.value == f(s.workers[w].index))
  }

  ghost function After<R>(s: State<R>, e: Event<R>, f: nat -> R): State<R>
    requires Enabled(s, e, f)
  {
    match e
    case Look(w, aborted) => LookIn(s, w, aborted)
    case Receive(w, value) => ReceiveIn(s, w, value)
  }

  ghost predicate Busy(workers: seq<Worker>, index: nat) {
    exists w :: 0 <= w < |workers| && workers[w] == Waiting(index)
  }

  ghost predicate Inv<R>(s: State<R>, f: nat -> R) {
    && s.nextIndex <= |s.results| && s.taken == seq(s.nextIndex, i => i)
    && (forall v, w :: 0 <= v < w < |s.workers| && s.workers[v].Waiting? ==> s.workers[w] != s.workers[v])
    && (forall w :: 0 <= w < |s.workers| && s.workers[w].Waiting? ==>
          s.workers[w].index < s.nextIndex && s.results[s.workers[w].index] == None)
    && (forall w :: 0 <= w < |s.workers| && s.workers[w].Finished? ==> s.nextIndex == |s.results|)
    && (forall i :: 0 <= i < |s.results| ==> s.results[i] == None || s.results[i] == Some(f(i)))
    && (forall i :: s.nextIndex <= i < |s.results| ==> s.results[i] == None)
  }

  /** Unless a worker has stopped, what has been taken is there or being worked on. */
  ghost predicate NothingDropped<R>(s: State<R>) {
    (forall w :: 0 <= w < |s.workers| ==> s.workers[w] != Stopped) ==>
      forall i :: 0 <= i < s.nextIndex && i < |s.results| ==> s.results[i].Some? || Busy(s.workers, i)
  }

  lemma LookKeepsInv<R>(s: State<R>, w: nat, aborted: bool, f: nat -> R)
    requires Inv(s, f) && w < |s.workers| && s.workers[w].Ready?
    ensures Inv(LookIn(s, w, aborted), f)
  {
    var s' := LookIn(s, w, aborted);
    if s'.nextIndex != s.nextIndex {
      assert s'.taken == seq(s'.nextIndex, i => i);
    }
  }

  lemma ReceiveKeepsInv<R>(s: State<R>, w: nat, value: Option<R>, f: nat -> R)
    requires Inv(s, f) && Enabled(s, Receive(w, value), f)
    ensures Inv(ReceiveIn(s, w, value), f)
  {
  }

  lemma StepDropsNothing<R>(s: State<R>, e: Event<R>, f: nat -> R)
    requires Inv(s, f) && NothingDropped(s) && Enabled(s, e, f)
    ensures NothingDropped(After(s, e, f))
  {
    var s' := After(s, e, f);
    if forall w :: 0 <= w < |s'.workers| ==> s'.workers[w] != Stopped {
      assert s'.workers[e.w] != Stopped;
      forall w | 0 <= w < |s.workers| ensures s.workers[w] != Stopped {
        assert w != e.w ==> s.workers[w] == s'.workers[w];
      }
      forall i | 0 <= i < s'.nextIndex && i < |s'.results| ensures s'.results[i].Some? || Busy(s'.workers, i) {
        if i == s.nextIndex {
          assert s'.workers[e.w] == Waiting(i);
        } else if s.results[i].None? {
          assert Busy(s.workers, i);
          var w :| 0 <= w < |s.workers| && s.workers[w] == Waiting(i);
          assert w != e.w ==> s'.workers[w] == Waiting(i);
        }
      }
    }
  }

  ghost predicate Run<R>(states: seq<State<R>>, events: seq<Event<R>>, length: nat, concurrency: nat, f: nat -> R) {
    && |states| == |events| + 1 && states[0] == Start(length, concurrency)
    && forall i :: 0 <= i < |events| ==>
        Enabled(states[i], events[i], f) && states[i + 1] == After(states[i], events[i], f)
  }

  lemma {:induction false} RunKeepsInv<R>(states: seq<State<R>>, events: seq<Event<R>>, length: nat, concurrency: nat,
                                          f: nat -> R)
    requires Run(states, events, length, concurrency, f)
    ensures var s := states[|events|];
            Inv(s, f) && NothingDropped(s) && |s.results| == length && |s.workers| == Min(concurrency, length)
    decreases |events|
  {
    if events != [] {
      var n := |events| - 1;
      RunKeepsInv(states[..n + 1], events[..n], length, concurrency, f);
      StepDropsNothing(states[n], events[n], f);
      match events[n] {
        case Look(w, aborted) => LookKeepsInv(states[n], w, aborted, f);
        case Receive(w, value) => ReceiveKeepsInv(states[n], w, value, f);
      }
    }
  }

  /** At every moment the indexes taken are 0, 1, 2 and so on, each once, and a result stands where its value did. */
  lemma EachIndexOnceInOrder<R>(states: seq<State<R>>, events: seq<Event<R>>, length: nat, concurrency: nat,
                                f: nat -> R)
    requires Run(states, events, length, concurrency, f)
    ensures var s := states[|events|];
            && Distinct(s.taken) && (forall i :: i in s.taken <==> 0 <= i < s.nextIndex)
            && forall i :: 0 <= i < |s.results| && s.results[i].Some? ==> s.results[i].value == f(i)
  {
    RunKeepsInv(states, events, length, concurrency, f);
    var s := states[|events|];
    forall i | 0 <= i < s.nextIndex ensures i in s.taken {
      assert s.taken[i] == i;
    }
  }

  /** Once all workers are done the results are complete, if there was a worker at all. */
  lemma AllDoneIsComplete<R>(states: seq<State<R>>, events: seq<Event<R>>, length: nat, concurrency: nat, f: nat -> R)
    requires Run(states, events, length, concurrency, f)
    requires forall w :: 0 <= w < |states[|events|].workers| ==> states[|events|].workers[w] == Finished
    ensures concurrency > 0 || length == 0 <==>
      |states[|events|].results| == length && forall i :: 0 <= i < length ==> states[|events|].results[i] == Some(f(i))
  {
    RunKeepsInv(states, events, length, concurrency, f);
    var s := states[|events|];
    if concurrency > 0 && length > 0 {
      assert s.workers[0] == Finished;
      forall i | 0 <= i < length ensures s.results[i] == Some(f(i)) {
        assert !Busy(s.workers, i);
      }
    } else if length > 0 {
      NoWorkersNoResults(states, events, length, f);
    }
  }

  lemma NoWorkersNoResults<R>(states: seq<State<R>>, events: seq<Event<R>>, length: nat, f: nat -> R)
    requires Run(states, events, length, 0, f) && length > 0
    ensures states[|events|].results[0] == None
  {
    assert events == [] || !Enabled(states[0], events[0], f);
  }
}
