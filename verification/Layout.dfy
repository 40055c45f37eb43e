/** Sequences laid out one after the other: where the parts of a concatenation are found. */
module Layout {

  ghost predicate Holds<E>(b: seq<E>, offset: nat, part: seq<E>) {
    offset + |part| <= |b| && b[offset..offset + |part|] == part
  }

  lemma HoldsParts<E>(b: seq<E>, offset: nat, p: seq<E>, q: seq<E>)
    ensures Holds(b, offset, p + q) <==> Holds(b, offset, p) && Holds(b, offset + |p|, q)
  {
    if Holds(b, offset, p + q) {
      assert b[offset..offset + |p|] == (p + q)[..|p|];
      assert b[offset + |p|..offset + |p| + |q|] == (p + q)[|p|..];
    }
    if Holds(b, offset, p) && Holds(b, offset + |p|, q) {
      assert b[offset..offset + |p + q|] == b[offset..offset + |p|] + b[offset + |p|..offset + |p| + |q|];
    }
  }

  lemma HoldsThree<E>(b: seq<E>, start: nat, p: seq<E>, q: seq<E>, r: seq<E>)
    ensures Holds(b, start, p + q + r)
        <==> Holds(b, start, p) && Holds(b, start + |p|, q) && Holds(b, start + |p| + |q|, r)
  {
    HoldsParts(b, start, p + q, r);
    HoldsParts(b, start, p, q);
  }

  lemma HoldsNext<E>(b: seq<E>, offset: nat, front: seq<E>, part: seq<E>)
    requires offset <= |b| && b[..offset] == front && Holds(b, offset, part)
    ensures b[..offset + |part|] == front + part
  {
    assert b[..offset + |part|] == b[..offset] + b[offset..offset + |part|];
  }

  lemma Associate<E>(a: seq<E>, b: seq<E>, c: seq<E>)
    ensures a + (b + c) == a + b + c
  {
  }

  /** The parts that the items stand for, one after the other. */
  function Flatten<T, E>(items: seq<T>, f: T -> seq<E>): seq<E> {
    if items == [] then [] else Flatten(items[..|items| - 1], f) + f(items[|items| - 1])
  }

  lemma FlattenAppend<T, E>(items: seq<T>, item: T, f: T -> seq<E>)
    ensures Flatten(items + [item], f) == Flatten(items, f) + f(item)
  {
    assert (items + [item])[..|items|] == items;
  }

  /** Where the part of the n-th item is found. */
  lemma {:induction false} PartOfFlatten<T, E>(b: seq<E>, head: seq<E>, items: seq<T>, f: T -> seq<E>, n: nat)
    requires head + Flatten(items, f) <= b && n < |items|
    ensures Holds(b, |head| + |Flatten(items[..n], f)|, f(items[n]))
    ensures |Flatten(items[..n + 1], f)| == |Flatten(items[..n], f)| + |f(items[n])|
    decreases |items|
  {
    var last := |items| - 1;
    var front := Flatten(items[..last], f);
    if n == last {
      assert items[..n + 1] == items;
      Associate(head, front, f(items[n]));
      HoldsInPrefix(b, head + front, f(items[n]));
    } else {
      Associate(head, front, f(items[last]));
      PartOfFlatten(b, head, items[..last], f, n);
      assert items[..last][..n] == items[..n] && items[..last][..n + 1] == items[..n + 1];
    }
  }

  lemma HoldsInPrefix<E>(b: seq<E>, front: seq<E>, part: seq<E>)
    requires front + part <= b
    ensures Holds(b, |front|, part)
  {
    assert b[|front|..|front| + |part|] == (front + part)[|front|..];
  }
}
