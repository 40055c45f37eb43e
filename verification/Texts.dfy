/** Texts: their order, and the texts between separators. */
module Texts {
  import opened Common

  // ----- Characters --------------------------------------------------------------------------------------------

  const DIGITS: set<char> := {'0', '1', '2', '3', '4', '5', '6', '7', '8', '9'}

  const SMALL_LETTERS: set<char> := {'a', 'b', 'c', 'd', 'e', 'f', 'g', 'h', 'i', 'j', 'k', 'l', 'm',
                                     'n', 'o', 'p', 'q', 'r', 's', 't', 'u', 'v', 'w', 'x', 'y', 'z'}

  const CAPITAL_LETTERS: set<char> := {'A', 'B', 'C', 'D', 'E', 'F', 'G', 'H', 'I', 'J', 'K', 'L', 'M',
                                       'N', 'O', 'P', 'Q', 'R', 'S', 'T', 'U', 'V', 'W', 'X', 'Y', 'Z'}

  lemma CharactersExactly(c: char)
    ensures c in DIGITS <==> '0' <= c <= '9'
    ensures c in SMALL_LETTERS <==> 'a' <= c <= 'z'
    ensures c in CAPITAL_LETTERS <==> 'A' <= c <= 'Z'
  {
  }

  // ----- Orders ----------------------------------------------------------------------------------------------

  /** A comparison that puts all values in one strict order: -1, 0 or 1, and 0 only for the same value. */
  ghost predicate TotalOrder<T(!new)>(compare: (T, T) -> int) {
    && (forall a, b :: compare(a, b) in {-1, 0, 1})
    && (forall a, b :: compare(a, b) == 0 <==> a == b)
    && (forall a, b :: compare(a, b) == -compare(b, a))
    && (forall a, b, c :: compare(a, b) < 0 && compare(b, c) < 0 ==> compare(a, c) < 0)
  }

  /** The first difference decides; of two sequences one of which starts the other, the shorter comes first. */
  function Lexicographic<T(==)>(compare: (T, T) -> int, p: seq<T>, q: seq<T>): int {
    if p == [] then if q == [] then 0 else -1
    else if q == [] then 1
    else if p[0] == q[0] then Lexicographic(compare, p[1..], q[1..])
    else compare(p[0], q[0])
  }

  lemma {:induction false} LexicographicSigns<T(!new)>(compare: (T, T) -> int, p: seq<T>, q: seq<T>)
    requires TotalOrder(compare)
    ensures Lexicographic(compare, p, q) in {-1, 0, 1}
    ensures Lexicographic(compare, p, q) == 0 <==> p == q
    ensures Lexicographic(compare, p, q) == -Lexicographic(compare, q, p)
  {
    if p != [] && q != [] {
      assert p == [p[0]] + p[1..] && q == [q[0]] + q[1..];
      LexicographicSigns(compare, p[1..], q[1..]);
    }
  }

  lemma {:induction false} LexicographicTransitive<T(!new)>(compare: (T, T) -> int, p: seq<T>, q: seq<T>, r: seq<T>)
    requires TotalOrder(compare)
    requires Lexicographic(compare, p, q) < 0 && Lexicographic(compare, q, r) < 0
    ensures Lexicographic(compare, p, r) < 0
  {
    if p != [] && q != [] && r != [] && p[0] == q[0] == r[0] {
      LexicographicTransitive(compare, p[1..], q[1..], r[1..]);
    }
  }

  lemma LexicographicIsTotal<T(!new)>(compare: (T, T) -> int)
    requires TotalOrder(compare)
    ensures TotalOrder((p: seq<T>, q: seq<T>) => Lexicographic(compare, p, q))
  {
    forall p: seq<T>, q: seq<T>
      ensures Lexicographic(compare, p, q) in {-1, 0, 1}
      ensures Lexicographic(compare, p, q) == 0 <==> p == q
      ensures Lexicographic(compare, p, q) == -Lexicographic(compare, q, p)
    {
      LexicographicSigns(compare, p, q);
    }
    forall p: seq<T>, q: seq<T>, r: seq<T> | Lexicographic(compare, p, q) < 0 && Lexicographic(compare, q, r) < 0
      ensures Lexicographic(compare, p, r) < 0
    {
      LexicographicTransitive(compare, p, q, r);
    }
  }

  function CompareChars(a: char, b: char): int {
    if a < b then -1 else if a == b then 0 else 1
  }

  /** The order of strings. */
  function CompareText(a: string, b: string): int {
    Lexicographic(CompareChars, a, b)
  }

  lemma TextOrderIsTotal()
    ensures TotalOrder(CompareText)
  {
    LexicographicIsTotal(CompareChars);
    var f := (p: string, q: string) => Lexicographic(CompareChars, p, q);
    assert forall p, q :: CompareText(p, q) == f(p, q);
  }

  /** `a` comes first: at the first place where the texts differ it has the smaller character, or has ended. */
  ghost predicate Precedes(a: string, b: string) {
    exists k :: 0 <= k < |b| && k <= |a| && a[..k] == b[..k] && (k == |a| || a[k] < b[k])
  }

  lemma {:induction false} CompareTextExactly(a: string, b: string)
    ensures CompareText(a, b) < 0 <==> Precedes(a, b)
  {
    if a == [] || b == [] || a[0] != b[0] {
      if CompareText(a, b) < 0 {
        assert a[..0] == b[..0];
      }
    } else {
      var c, d := a[1..], b[1..];
      CompareTextExactly(c, d);
      if k :| 0 <= k < |d| && k <= |c| && c[..k] == d[..k] && (k == |c| || c[k] < d[k]) {
        assert a[..k + 1] == [a[0]] + c[..k] && b[..k + 1] == [b[0]] + d[..k];
      }
      if k :| 0 <= k < |b| && k <= |a| && a[..k] == b[..k] && (k == |a| || a[k] < b[k]) {
        assert k > 0 && c[..k - 1] == a[..k][1..] && d[..k - 1] == b[..k][1..];
      }
    }
  }

  // ----- Separators ------------------------------------------------------------------------------------------

  /** The text before the first c, and the text after it if there is one. */
  function Cut(s: string, c: char): (string, Option<string>) {
    if s == "" then ("", None)
    else if s[0] == c then ("", Some(s[1..]))
    else
      var (a, b) := Cut(s[1..], c);
      ([s[0]] + a, b)
  }

  function Rejoined(a: string, c: char, b: Option<string>): string {
    match b
    case None => a
    case Some(t) => a + ([c] + t)
  }

  lemma {:induction false} CutExactly(s: string, c: char, a: string, b: Option<string>)
    ensures Cut(s, c) == (a, b) <==> s == Rejoined(a, c, b) && c !in a
  {
    if s != "" {
      if a != "" {
        assert Rejoined(a, c, b)[1..] == Rejoined(a[1..], c, b) && Rejoined(a, c, b)[0] == a[0];
        assert s == [s[0]] + s[1..] && Rejoined(a, c, b) == [a[0]] + Rejoined(a[1..], c, b);
        assert a == [a[0]] + a[1..];
        CutExactly(s[1..], c, a[1..], b);
        var (a', b') := Cut(s[1..], c);
        if s[0] != c {
          assert Cut(s, c) == ([s[0]] + a', b');
          assert ([s[0]] + a')[1..] == a';
        }
      } else if b.Some? {
        assert Rejoined(a, c, b) == [c] + b.value;
        assert s == [s[0]] + s[1..];
      }
    }
  }

  function Split(s: string): (ids: seq<string>)
    decreases |s|
  {
    var (a, b) := Cut(s, '.');
    match b
    case None => [a]
    case Some(rest) =>
      CutExactly(s, '.', a, b);
      [a] + Split(rest)
  }

  function Join(ids: seq<string>): string
    requires ids != []
  {
    if |ids| == 1 then ids[0] else ids[0] + ("." + Join(ids[1..]))
  }

  lemma {:induction false} SplitExactly(s: string, ids: seq<string>)
    ensures Split(s) == ids <==> ids != [] && s == Join(ids) && forall i :: 0 <= i < |ids| ==> '.' !in ids[i]
    decreases |ids|
  {
    var (a, b) := Cut(s, '.');
    CutExactly(s, '.', a, b);
    if ids != [] {
      var tail := if |ids| == 1 then None else Some(Join(ids[1..]));
      CutExactly(s, '.', ids[0], tail);
      assert s == Join(ids) <==> s == Rejoined(ids[0], '.', tail);
      assert ids == [ids[0]] + ids[1..];
      if b.Some? {
        SplitExactly(b.value, ids[1..]);
        assert Split(s)[0] == a && Split(s)[1..] == Split(b.value);
      }
    }
  }
}
