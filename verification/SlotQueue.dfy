/**
 The counting semaphore with hand-over that limits inspections and uploads: a slot that is given back
 goes straight to the first waiter, and only an idle slot lowers the count.
 */
module SlotQueues {
  import opened Common

  datatype Outcome = Granted | Queued | Busy

  class SlotQueue {
    const capacity: nat
    const maximumWaiting: Option<nat>   // inspections may queue up without limit, uploads may not
    var active: int
    var waiting: seq<nat>
    ghost var inside: set<nat>          // the callers that hold a slot

    ghost predicate Valid()
      reads this
    {
      && active == |inside| <= capacity
      && (waiting != [] ==> active == capacity)
      && (maximumWaiting.Some? ==> |waiting| <= maximumWaiting.value)
      && Distinct(waiting)
      && forall c :: c in waiting ==> c !in inside
    }

    constructor (capacity: nat, maximumWaiting: Option<nat>)
      ensures Valid() && inside == {} && waiting == []
      ensures this.capacity == capacity && this.maximumWaiting == maximumWaiting
    {
      this.capacity, this.maximumWaiting := capacity, maximumWaiting;
      active, waiting, inside := 0, [], {};
    }

    /** A caller is let in, queued, or turned away; it is turned away only when every slot and every place is taken. */
    method Acquire(caller: nat) returns (outcome: Outcome)
      requires Valid() && caller !in inside && caller !in waiting
      modifies this
      ensures Valid()
      ensures outcome == Granted <==> |old(inside)| < capacity
      ensures outcome == Busy <==>
              |old(inside)| == capacity && maximumWaiting.Some? && |old(waiting)| == maximumWaiting.value
      ensures inside == old(inside) + (if outcome == Granted then {caller} else {})
      ensures waiting == old(waiting) + (if outcome == Queued then [caller] else [])
    {
      if active < capacity {
        active, inside := active + 1, inside + {caller};
        return Granted;
      }
      if maximumWaiting.Some? && |waiting| >= maximumWaiting.value {
        return Busy;
      }
      DistinctConcat(waiting, [caller]);
      waiting := waiting + [caller];
      outcome := Queued;
    }

    /** The caller leaves; the one that waited longest, if any, takes its place in the same step. */
    method Release(caller: nat) returns (woken: Option<nat>)
      requires Valid() && caller in inside
      modifies this
      ensures Valid()
      ensures woken == if old(waiting) == [] then None else Some(old(waiting)[0])
      ensures waiting == if old(waiting) == [] then [] else old(waiting)[1..]
      ensures inside == old(inside) - {caller} + (if woken.Some? then {woken.value} else {})
    {
      if waiting == [] {
        active, inside := active - 1, inside - {caller};
        return None;
      }
      woken := Some(waiting[0]);
      assert waiting == [waiting[0]] + waiting[1..];
      DistinctParts([waiting[0]], waiting[1..]);
      assert waiting[0] in [waiting[0]];
      inside := inside - {caller} + {waiting[0]};
      waiting := waiting[1..];
    }
  }
}
