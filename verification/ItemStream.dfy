/**
 Files that are a head and then a list of items up to an end item: a scan that reads item after item
 from the bytes decides what a fold over the list says, and the list is what the bytes were made from.
 */
module ItemStream {
  import opened Common
  import opened Layout

  /**
   How items lie in the bytes.  `read` gives the item at an offset; `render` its bytes.  An `open` item
   does not say where it ends: it goes on to the next `stop`.
   */
  datatype Medium<!T, !E> = Medium(read: nat -> Option<T>, render: T -> seq<E>, fine: T -> bool,
                                   isEnd: T -> bool, open: T -> bool, stop: nat -> bool)

  /** What to do with an item: `take` it and go on; and how to `finish` with the end item. */
  datatype Rules<!S, !T, !R> = Rules(take: (S, T) -> Option<S>, finish: (S, T) -> Option<R>)

  /** Items are read exactly where they are rendered, and stop what comes before them. */
  ghost predicate Faithful<T(!new), E>(m: Medium<T, E>, b: seq<E>) {
    && (forall offset: nat :: offset <= |b| && m.read(offset).Some? ==>
          m.fine(m.read(offset).value) && Holds(b, offset, m.render(m.read(offset).value)))
    && (forall offset: nat, x :: Ended(m, b, offset, x) ==> m.read(offset) == Some(x))
    && (forall offset: nat, x :: m.fine(x) && Holds(b, offset, m.render(x)) ==> m.stop(offset))
    && (forall x :: |m.render(x)| > 0)
    && (forall x :: m.isEnd(x) ==> !m.open(x))
  }

  ghost predicate Ended<T, E>(m: Medium<T, E>, b: seq<E>, offset: nat, x: T) {
    m.fine(x) && Holds(b, offset, m.render(x)) && (m.open(x) ==> m.stop(offset + |m.render(x)|))
  }

  /** The verdict on the bytes from `offset` on. */
  ghost function ScanFrom<S, T, E, R>(rules: Rules<S, T, R>, m: Medium<T, E>, length: nat, offset: nat, s: S): Option<R>
    decreases length - offset
  {
    if offset >= length then None
    else
      match m.read(offset)
      case None => None
      case Some(x) =>
        var next := offset + |m.render(x)|;
        if m.isEnd(x) then if next == length then rules.finish(s, x) else None
        else
          match rules.take(s, x)
          case None => None
          case Some(s') => if next == offset then None else ScanFrom(rules, m, length, next, s')
  }

  lemma ScanStep<S, T, E, R>(rules: Rules<S, T, R>, m: Medium<T, E>, length: nat, offset: nat, s: S, x: T, size: nat)
    requires offset < length && m.read(offset) == Some(x) && |m.render(x)| == size > 0
    ensures var r, next := ScanFrom(rules, m, length, offset, s), offset + size;
            if m.isEnd(x) then r == if next == length then rules.finish(s, x) else None
            else
              match rules.take(s, x)
              case None => r == None
              case Some(s') => r == ScanFrom(rules, m, length, next, s')
  {
  }

  /** The state after a list of items. */
  ghost function TakeAll<S, T, R>(rules: Rules<S, T, R>, s: S, items: seq<T>): Option<S> {
    if items == [] then Some(s)
    else
      match TakeAll(rules, s, items[..|items| - 1])
      case None => None
      case Some(s') => rules.take(s', items[|items| - 1])
  }

  lemma TakeAllAppend<S, T, R>(rules: Rules<S, T, R>, s: S, items: seq<T>, x: T)
    ensures TakeAll(rules, s, items + [x])
            == match TakeAll(rules, s, items) case None => None case Some(s') => rules.take(s', x)
  {
    assert (items + [x])[..|items|] == items;
  }

  lemma {:induction false} TakeAllPrefix<S, T, R>(rules: Rules<S, T, R>, s: S, items: seq<T>, n: nat)
    requires n <= |items| && TakeAll(rules, s, items).Some?
    ensures TakeAll(rules, s, items[..n]).Some?
    decreases |items|
  {
    if n == |items| {
      assert items[..n] == items;
    } else {
      var front := items[..|items| - 1];
      TakeAllPrefix(rules, s, front, n);
      assert front[..n] == items[..n];
    }
  }

  ghost predicate Parts<T, E>(m: Medium<T, E>, items: seq<T>) {
    forall i :: 0 <= i < |items| ==> m.fine(items[i]) && !m.isEnd(items[i])
  }

  /** The bytes are the head, the items and the end item. */
  ghost predicate LaidOut<T, E>(m: Medium<T, E>, b: seq<E>, head: seq<E>, items: seq<T>, end: T) {
    b == head + Flatten(items, m.render) + m.render(end) && Parts(m, items) && m.fine(end) && m.isEnd(end)
  }

  lemma StartsWithHead<T, E>(m: Medium<T, E>, b: seq<E>, head: seq<E>, items: seq<T>, end: T)
    requires LaidOut(m, b, head, items, end)
    ensures head <= b
  {
  }

  /** A result means that the bytes are those of a list that can be taken. */
  lemma {:induction false} ScanIsSound<S, T(!new), E, R>(rules: Rules<S, T, R>, m: Medium<T, E>, b: seq<E>,
                                                         head: seq<E>,
                                                         offset: nat, initial: S, s: S, items: seq<T>)
    returns (all: seq<T>, end: T)
    requires Faithful(m, b) && Parts(m, items) && TakeAll(rules, initial, items) == Some(s)
    requires offset <= |b| && b[..offset] == head + Flatten(items, m.render)
    requires ScanFrom(rules, m, |b|, offset, s).Some?
    ensures LaidOut(m, b, head, all, end) && TakeAll(rules, initial, all).Some?
    ensures ScanFrom(rules, m, |b|, offset, s) == rules.finish(TakeAll(rules, initial, all).value, end)
    decreases |b| - offset
  {
    var x := m.read(offset).value;
    var next := offset + |m.render(x)|;
    ScanStep(rules, m, |b|, offset, s, x, |m.render(x)|);
    HoldsNext(b, offset, head + Flatten(items, m.render), m.render(x));
    if m.isEnd(x) {
      assert b[..next] == b;
      all, end := items, x;
    } else {
      TakeAllAppend(rules, initial, items, x);
      FlattenAppend(items, x, m.render);
      Associate(head, Flatten(items, m.render), m.render(x));
      all, end := ScanIsSound(rules, m, b, head, next, initial, rules.take(s, x).value, items + [x]);
    }
  }

  /** Where the n-th item of a list is found. */
  lemma ItemOfList<T, E>(m: Medium<T, E>, b: seq<E>, head: seq<E>, items: seq<T>, end: T, n: nat)
      returns (x: T, offset: nat)
    requires LaidOut(m, b, head, items, end) && n <= |items|
    ensures x == if n == |items| then end else items[n]
    ensures offset == |head| + |Flatten(items[..n], m.render)| && Holds(b, offset, m.render(x)) && m.fine(x)
    ensures offset + |m.render(x)| == if n == |items| then |b| else |head| + |Flatten(items[..n + 1], m.render)|
  {
    offset := |head| + |Flatten(items[..n], m.render)|;
    if n == |items| {
      x := end;
      assert items[..n] == items;
      HoldsInPrefix(b, head + Flatten(items, m.render), m.render(end));
    } else {
      x := items[n];
      PartOfFlatten(b, head, items, m.render, n);
    }
  }

  /** Each item of a list is read where it is. */
  lemma ListIsRead<T(!new), E>(m: Medium<T, E>, b: seq<E>, head: seq<E>, items: seq<T>, end: T, n: nat)
      returns (x: T, offset: nat)
    requires Faithful(m, b) && LaidOut(m, b, head, items, end) && n <= |items|
    ensures x == if n == |items| then end else items[n]
    ensures offset == |head| + |Flatten(items[..n], m.render)| && offset < |b| && m.read(offset) == Some(x)
    ensures |m.render(x)| > 0
    ensures offset + |m.render(x)| == if n == |items| then |b| else |head| + |Flatten(items[..n + 1], m.render)|
  {
    x, offset := ItemOfList(m, b, head, items, end, n);
    if n < |items| {
      var following, next := ItemOfList(m, b, head, items, end, n + 1);
    }
    assert Ended(m, b, offset, x);
  }

  /** If the bytes are those of a list that can be taken, the scan gets through it. */
  lemma {:induction false} ScanIsComplete<S, T(!new), E, R>(rules: Rules<S, T, R>, m: Medium<T, E>, b: seq<E>,
                                                            head: seq<E>,
                                                            all: seq<T>, end: T, n: nat, initial: S)
    requires Faithful(m, b) && LaidOut(m, b, head, all, end) && n <= |all|
    requires TakeAll(rules, initial, all).Some? && TakeAll(rules, initial, all[..n]).Some?
    ensures ScanFrom(rules, m, |b|, |head| + |Flatten(all[..n], m.render)|, TakeAll(rules, initial, all[..n]).value)
            == rules.finish(TakeAll(rules, initial, all).value, end)
    decreases |all| - n
  {
    var x, offset := ListIsRead(m, b, head, all, end, n);
    var s := TakeAll(rules, initial, all[..n]).value;
    ScanStep(rules, m, |b|, offset, s, x, |m.render(x)|);
    if n == |all| {
      assert all[..n] == all;
    } else {
      TakeAllPrefix(rules, initial, all, n + 1);
      assert all[..n + 1] == all[..n] + [x];
      TakeAllAppend(rules, initial, all[..n], x);
      ScanIsComplete(rules, m, b, head, all, end, n + 1, initial);
    }
  }

  /** The result of the scan behind the head is that of any list the bytes are made from... */
  lemma ScanOfList<S, T(!new), E, R>(rules: Rules<S, T, R>, m: Medium<T, E>, b: seq<E>, head: seq<E>, initial: S,
                                     all: seq<T>, end: T)
    requires Faithful(m, b) && LaidOut(m, b, head, all, end) && TakeAll(rules, initial, all).Some?
    ensures ScanFrom(rules, m, |b|, |head|, initial) == rules.finish(TakeAll(rules, initial, all).value, end)
  {
    assert all[..0] == [];
    ScanIsComplete(rules, m, b, head, all, end, 0, initial);
  }

  /** ...and if there is one, the bytes are made from a list. */
  lemma ListOfScan<S, T(!new), E, R>(rules: Rules<S, T, R>, m: Medium<T, E>, b: seq<E>, head: seq<E>, initial: S)
    returns (all: seq<T>, end: T)
    requires Faithful(m, b) && head <= b && ScanFrom(rules, m, |b|, |head|, initial).Some?
    ensures LaidOut(m, b, head, all, end) && TakeAll(rules, initial, all).Some?
    ensures ScanFrom(rules, m, |b|, |head|, initial) == rules.finish(TakeAll(rules, initial, all).value, end)
  {
    var none: seq<T> := [];
    assert b[..|head|] == head + Flatten(none, m.render);
    all, end := ScanIsSound(rules, m, b, head, |head|, initial, initial, none);
  }
}
