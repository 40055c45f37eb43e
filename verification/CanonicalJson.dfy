/** The canonical JSON text that release manifests are signed as. */
module CanonicalJson {
  import opened CodeUnits
  import opened Common

  // Records remember the order in which their keys were inserted; the printer sorts them.

  const MAX_SAFE_INTEGER := 9_007_199_254_740_991

  datatype Value =
    | Null
    | Bool(b: bool)
    | Number(n: int)
    | String(s: Text)
    | Array(items: seq<Value>)
    | Record(fields: seq<Field>)
    | NonCanonical   // fractions, undefined, functions: whatever the printer refuses

  datatype Field = Field(key: Text, value: Value)

  // ----- Printing ----------------------------------------------------------------------------------------

  // Each printing function gives the text of its argument followed by `rest`.

  function HexDigit(d: int): CodeUnit
    requires 0 <= d < 16
  {
    if d < 10 then 48 + d else 87 + d
  }

  function HexTo(u: CodeUnit, rest: Text): Text {
    [HexDigit(u / 0x1000)] + ([HexDigit(u / 0x100 % 16)] + ([HexDigit(u / 0x10 % 16)] + ([HexDigit(u % 16)] + rest)))
  }

  predicate IsHigh(u: CodeUnit) {
    0xD800 <= u < 0xDC00
  }

  predicate IsLow(u: CodeUnit) {
    0xDC00 <= u < 0xE000
  }

  /** The letter of a two-character escape. */
  function Short(u: CodeUnit): Option<CodeUnit> {
    if u == 8 then Some(98)          // b
    else if u == 9 then Some(116)    // t
    else if u == 10 then Some(110)   // n
    else if u == 12 then Some(102)   // f
    else if u == 13 then Some(114)   // r
    else if u == 34 || u == 92 then Some(u)
    else None
  }

  /** How a code unit is written, `lone` telling whether it is a surrogate without its partner. */
  function EscapedTo(u: CodeUnit, lone: bool, rest: Text): Text {
    if Short(u).Some? then [92] + ([Short(u).value] + rest)
    else if u < 0x20 || lone then [92] + ([117] + HexTo(u, rest))
    else [u] + rest
  }

  predicate Lone(s: Text, afterHigh: bool)
    requires s != []
  {
    || (IsHigh(s[0]) && !(|s| > 1 && IsLow(s[1])))
    || (IsLow(s[0]) && !afterHigh)
  }

  /** The rest of a string after its opening quotation mark, up to and including the closing one. */
  function QuotedTo(s: Text, afterHigh: bool, rest: Text): Text {
    if s == [] then [34] + rest
    else EscapedTo(s[0], Lone(s, afterHigh), QuotedTo(s[1..], IsHigh(s[0]), rest))
  }

  function QuoteTo(s: Text, rest: Text): Text {
    [34] + QuotedTo(s, false, rest)
  }

  /** JSON text with fields in the order in which they come. */
  function PrintTo(v: Value, rest: Text): Text
    decreases v, 0
  {
    match v
    case Null => [110] + ([117] + ([108] + ([108] + rest)))
    case Bool(b) =>
      if b then [116] + ([114] + ([117] + ([101] + rest)))
      else [102] + ([97] + ([108] + ([115] + ([101] + rest))))
    case Number(n) => DecimalTo(n, rest)
    case String(s) => QuoteTo(s, rest)
    case Array(items) => [91] + ItemsTo(items, rest)
    case Record(fields) => [123] + FieldsTo(fields, rest)
    case NonCanonical => rest
  }

  /** Items joined by commas, and the closing bracket. */
  function ItemsTo(items: seq<Value>, rest: Text): Text
    decreases items, 1
  {
    if items == [] then [93] + rest
    else PrintTo(items[0], if |items| == 1 then [93] + rest else [44] + ItemsTo(items[1..], rest))
  }

  function FieldTo(f: Field, rest: Text): Text
    decreases f, 1
  {
    QuoteTo(f.key, [58] + PrintTo(f.value, rest))
  }

  function FieldsTo(fields: seq<Field>, rest: Text): Text
    decreases fields, 2
  {
    if fields == [] then [125] + rest
    else FieldTo(fields[0], if |fields| == 1 then [125] + rest else [44] + FieldsTo(fields[1..], rest))
  }

  /** No part of the value is one that the printer refuses. */
  predicate Canonical(v: Value) {
    match v
    case Number(n) => -MAX_SAFE_INTEGER <= n <= MAX_SAFE_INTEGER
    case Array(items) => forall i :: 0 <= i < |items| ==> Canonical(items[i])
    case Record(fields) => forall i :: 0 <= i < |fields| ==> Canonical(fields[i].value)
    case NonCanonical => false
    case _ => true
  }

  // ----- Key order -----------------------------------------------------------------------------------------

  /** Lexicographic order by code unit. */
  predicate Before(a: Text, b: Text) {
    b != [] && (a == [] || a[0] < b[0] || (a[0] == b[0] && Before(a[1..], b[1..])))
  }

  function Insert(f: Field, fields: seq<Field>): (r: seq<Field>)
    ensures forall g :: g in r <==> g == f || g in fields
  {
    if fields == [] || Before(f.key, fields[0].key) then [f] + fields
    else [fields[0]] + Insert(f, fields[1..])
  }

  function Sort(fields: seq<Field>): (r: seq<Field>)
    ensures forall g :: g in r <==> g in fields
  {
    if fields == [] then [] else Insert(fields[0], Sort(fields[1..]))
  }

  /** The value with the fields of every record sorted by key. */
  function Sorted(v: Value): Value
    decreases v, 0
  {
    match v
    case Array(items) => Array(SortedItems(items))
    case Record(fields) => Record(Sort(SortedFields(fields)))
    case _ => v
  }

  function SortedItems(items: seq<Value>): (r: seq<Value>)
    ensures |r| == |items| && forall i :: 0 <= i < |items| ==> r[i] == Sorted(items[i])
    decreases items, 1
  {
    if items == [] then [] else [Sorted(items[0])] + SortedItems(items[1..])
  }

  function SortedFields(fields: seq<Field>): (r: seq<Field>)
    ensures |r| == |fields|
    ensures forall i :: 0 <= i < |fields| ==> r[i] == Field(fields[i].key, Sorted(fields[i].value))
    decreases fields, 1
  {
    if fields == [] then []
    else [Field(fields[0].key, Sorted(fields[0].value))] + SortedFields(fields[1..])
  }

  /** The canonical text, or nothing if some part of the value has none. */
  function CanonicalJson(v: Value): Option<Text> {
    if Canonical(v) then Some(PrintTo(Sorted(v), [])) else None
  }

  // ----- What the text stands for ----------------------------------------------------------------------------

  /** Keys occur once in each record, as they do in an object. */
  ghost predicate Keyed(v: Value) {
    match v
    case Array(items) => forall i :: 0 <= i < |items| ==> Keyed(items[i])
    case Record(fields) =>
      && (forall i :: 0 <= i < |fields| ==> Keyed(fields[i].value))
      && (forall i, j :: 0 <= i < j < |fields| ==> fields[i].key != fields[j].key)
    case _ => true
  }

  function Keys(fields: seq<Field>): set<Text> {
    set i | 0 <= i < |fields| :: fields[i].key
  }

  /** Equality with records read as maps: the same keys, and the same values under them. */
  ghost predicate Same(v: Value, w: Value) {
    match (v, w)
    case (Array(a), Array(b)) => |a| == |b| && forall i :: 0 <= i < |a| ==> Same(a[i], b[i])
    case (Record(a), Record(b)) =>
      && Keys(a) == Keys(b)
      && forall i, j :: 0 <= i < |a| && 0 <= j < |b| && a[i].key == b[j].key ==> Same(a[i].value, b[j].value)
    case _ => v == w
  }

  // ----- The text determines the value -------------------------------------------------------------------------

  lemma SameHead(a: CodeUnit, r: Text, b: CodeUnit, s: Text)
    requires [a] + r == [b] + s
    ensures a == b && r == s
  {
    assert ([a] + r)[0] == a && ([b] + s)[0] == b;
    assert ([a] + r)[1..] == r && ([b] + s)[1..] == s;
  }

  /** What can follow a value: nothing, a comma or a closing bracket. */
  predicate Delimited(r: Text) {
    r == [] || r[0] in {44, 93, 125}
  }

  predicate IsDigit(c: CodeUnit) {
    48 <= c <= 57
  }

  /** Where a run of digits ends is visible in the text. */
  lemma DigitRunsEqual(a: Text, r: Text, b: Text, s: Text)
    requires a + r == b + s && Delimited(r) && Delimited(s)
    requires (forall i :: 0 <= i < |a| ==> IsDigit(a[i])) && (forall i :: 0 <= i < |b| ==> IsDigit(b[i]))
    ensures a == b && r == s
  {
    RunIs(a, r);
    RunIs(b, s);
    assert (a + r)[..|a|] == a && (b + s)[..|b|] == b;
    assert (a + r)[|a|..] == r && (b + s)[|b|..] == s;
  }

  /** The number of digits at the start of a text. */
  function Run(t: Text): nat {
    if t == [] || !IsDigit(t[0]) then 0 else 1 + Run(t[1..])
  }

  lemma {:induction false} RunIs(a: Text, r: Text)
    requires Delimited(r) && forall i :: 0 <= i < |a| ==> IsDigit(a[i])
    ensures Run(a + r) == |a|
  {
    if a == [] {
      assert a + r == r;
    } else {
      assert (a + r)[0] == a[0] && (a + r)[1..] == a[1..] + r;
      RunIs(a[1..], r);
    }
  }

  lemma DecimalPrefixFree(m: int, n: int, r: Text, s: Text)
    requires DecimalTo(m, r) == DecimalTo(n, s) && Delimited(r) && Delimited(s)
    ensures m == n && r == s
  {
    StartsNumber(m, r);
    StartsNumber(n, s);
    var a, b := if m < 0 then -m else m, if n < 0 then -n else n;
    if m < 0 {
      SameHead(45, Digits(a) + r, 45, Digits(b) + s);
    }
    DigitRunsEqual(Digits(a), r, Digits(b), s);
    DigitsInjective(a, b);
  }

  lemma StartsNumber(n: int, r: Text)
    ensures DecimalTo(n, r) != [] && if n < 0 then DecimalTo(n, r)[0] == 45 else IsDigit(DecimalTo(n, r)[0])
  {
  }

  lemma HexPrefixFree(u: CodeUnit, v: CodeUnit, r: Text, s: Text)
    requires HexTo(u, r) == HexTo(v, s)
    ensures u == v && r == s
  {
    var r1, s1 := [HexDigit(u % 16)] + r, [HexDigit(v % 16)] + s;
    var r2, s2 := [HexDigit(u / 0x10 % 16)] + r1, [HexDigit(v / 0x10 % 16)] + s1;
    var r3, s3 := [HexDigit(u / 0x100 % 16)] + r2, [HexDigit(v / 0x100 % 16)] + s2;
    SameHead(HexDigit(u / 0x1000), r3, HexDigit(v / 0x1000), s3);
    SameHead(HexDigit(u / 0x100 % 16), r2, HexDigit(v / 0x100 % 16), s2);
    SameHead(HexDigit(u / 0x10 % 16), r1, HexDigit(v / 0x10 % 16), s1);
    SameHead(HexDigit(u % 16), r, HexDigit(v % 16), s);
    HexDigitInjective(u / 0x1000, v / 0x1000);
    HexDigitInjective(u / 0x100 % 16, v / 0x100 % 16);
    HexDigitInjective(u / 0x10 % 16, v / 0x10 % 16);
    HexDigitInjective(u % 16, v % 16);
    FromDigits(u);
    FromDigits(v);
  }

  lemma HexDigitInjective(d: int, e: int)
    requires 0 <= d < 16 && 0 <= e < 16
    ensures HexDigit(d) == HexDigit(e) ==> d == e
  {
  }

  lemma FromDigits(u: CodeUnit)
    ensures u == u / 0x1000 * 0x1000 + u / 0x100 % 16 * 0x100 + u / 0x10 % 16 * 0x10 + u % 16
  {
    assert u / 0x100 == u / 0x10 / 0x10 && u / 0x1000 == u / 0x100 / 0x10;
  }

  /** A code unit is visible in the text, however it was written. */
  lemma EscapedPrefixFree(u: CodeUnit, lone: bool, v: CodeUnit, lone': bool, r: Text, s: Text)
    requires EscapedTo(u, lone, r) == EscapedTo(v, lone', s)
    ensures u == v && r == s
  {
    var r1, s1 := EscapeTail(u, lone, r), EscapeTail(v, lone', s);
    SameHead(EscapeHead(u, lone), r1, EscapeHead(v, lone'), s1);
    if EscapeHead(u, lone) == 92 {
      SameHead(EscapeLetter(u), EscapeEnd(u, r), EscapeLetter(v), EscapeEnd(v, s));
      if EscapeLetter(u) == 117 {
        HexPrefixFree(u, v, r, s);
      }
    }
  }

  function EscapeHead(u: CodeUnit, lone: bool): (c: CodeUnit)
    ensures c != 34
  {
    if Short(u).Some? || u < 0x20 || lone then 92 else u
  }

  function EscapeLetter(u: CodeUnit): CodeUnit {
    if Short(u).Some? then Short(u).value else 117
  }

  function EscapeEnd(u: CodeUnit, rest: Text): Text {
    if Short(u).Some? then rest else HexTo(u, rest)
  }

  function EscapeTail(u: CodeUnit, lone: bool, rest: Text): (t: Text)
    ensures EscapedTo(u, lone, rest) == [EscapeHead(u, lone)] + t
  {
    if Short(u).Some? || u < 0x20 || lone then [EscapeLetter(u)] + EscapeEnd(u, rest) else rest
  }

  lemma {:induction false} QuotedPrefixFree(a: Text, afterHigh: bool, b: Text, afterHigh': bool, r: Text, s: Text)
    requires QuotedTo(a, afterHigh, r) == QuotedTo(b, afterHigh', s)
    ensures a == b && r == s
    decreases |a|
  {
    QuotedHead(a, afterHigh, r);
    QuotedHead(b, afterHigh', s);
    if a == [] {
      SameHead(34, r, 34, s);
    } else {
      var r', s' := QuotedTo(a[1..], IsHigh(a[0]), r), QuotedTo(b[1..], IsHigh(b[0]), s);
      EscapedPrefixFree(a[0], Lone(a, afterHigh), b[0], Lone(b, afterHigh'), r', s');
      QuotedPrefixFree(a[1..], IsHigh(a[0]), b[1..], IsHigh(b[0]), r, s);
      assert a == [a[0]] + a[1..] && b == [b[0]] + b[1..];
    }
  }

  /** A quotation mark can only be the closing one. */
  lemma QuotedHead(a: Text, afterHigh: bool, r: Text)
    ensures var t := QuotedTo(a, afterHigh, r); t != [] && (t[0] == 34 <==> a == [])
  {
    if a != [] {
      var lone, r' := Lone(a, afterHigh), QuotedTo(a[1..], IsHigh(a[0]), r);
      assert EscapedTo(a[0], lone, r') == [EscapeHead(a[0], lone)] + EscapeTail(a[0], lone, r');
    }
  }

  lemma QuotePrefixFree(a: Text, b: Text, r: Text, s: Text)
    requires QuoteTo(a, r) == QuoteTo(b, s)
    ensures a == b && r == s
  {
    SameHead(34, QuotedTo(a, false, r), 34, QuotedTo(b, false, s));
    QuotedPrefixFree(a, false, b, false, r, s);
  }

  /** The first character of a printed value. */
  function Head(v: Value): CodeUnit {
    match v
    case Null => 110
    case Bool(b) => if b then 116 else 102
    case Number(n) => if n < 0 then 45 else Digits(n)[0]
    case String(_) => 34
    case Array(_) => 91
    case Record(_) => 123
    case NonCanonical => 0
  }

  lemma HeadTellsKind(v: Value, r: Text)
    requires Canonical(v)
    ensures var t := PrintTo(v, r);
            && t != [] && t[0] == Head(v)
            && (v.Number? <==> t[0] == 45 || IsDigit(t[0]))
            && Head(v) !in {93, 125, 44}
  {
    if v.Number? {
      StartsNumber(v.n, r);
    }
  }

  /** A printed value shows where it ends, and no other value prints to the same text. */
  lemma {:induction false} PrintPrefixFree(v: Value, w: Value, r: Text, s: Text)
    requires Canonical(v) && Canonical(w) && Delimited(r) && Delimited(s)
    requires PrintTo(v, r) == PrintTo(w, s)
    ensures v == w && r == s
    decreases v, 0
  {
    HeadTellsKind(v, r);
    HeadTellsKind(w, s);
    match v
    case Number(n) => DecimalPrefixFree(n, w.n, r, s);
    case String(x) => QuotePrefixFree(x, w.s, r, s);
    case Array(items) =>
      SameHead(91, ItemsTo(items, r), 91, ItemsTo(w.items, s));
      ItemsPrefixFree(items, w.items, r, s);
    case Record(fields) =>
      SameHead(123, FieldsTo(fields, r), 123, FieldsTo(w.fields, s));
      FieldsPrefixFree(fields, w.fields, r, s);
    case _ => WordPrefixFree(v, r, s);
  }

  lemma WordPrefixFree(v: Value, r: Text, s: Text)
    requires v.Null? || v.Bool?
    requires PrintTo(v, r) == PrintTo(v, s)
    ensures r == s
  {
    var n := if v == Bool(false) then 5 else 4;
    assert PrintTo(v, r)[n..] == r && PrintTo(v, s)[n..] == s;
  }

  lemma {:induction false} ItemsPrefixFree(a: seq<Value>, b: seq<Value>, r: Text, s: Text)
    requires (forall i :: 0 <= i < |a| ==> Canonical(a[i])) && (forall i :: 0 <= i < |b| ==> Canonical(b[i]))
    requires ItemsTo(a, r) == ItemsTo(b, s)
    ensures a == b && r == s
    decreases a, 1
  {
    ItemsHead(a, r);
    ItemsHead(b, s);
    if a == [] {
      SameHead(93, r, 93, s);
    } else {
      PrintPrefixFree(a[0], b[0], AfterItem(a, r), AfterItem(b, s));
      SameHead(if |a| == 1 then 93 else 44, if |a| == 1 then r else ItemsTo(a[1..], r),
               if |b| == 1 then 93 else 44, if |b| == 1 then s else ItemsTo(b[1..], s));
      if |a| > 1 {
        ItemsPrefixFree(a[1..], b[1..], r, s);
      }
      assert a == [a[0]] + a[1..] && b == [b[0]] + b[1..];
    }
  }

  /** The text that follows the first item of a non-empty array. */
  function AfterItem(a: seq<Value>, r: Text): (t: Text)
    requires a != []
    ensures Delimited(t)
    ensures ItemsTo(a, r) == PrintTo(a[0], t)
  {
    if |a| == 1 then [93] + r else [44] + ItemsTo(a[1..], r)
  }

  lemma ItemsHead(a: seq<Value>, r: Text)
    requires forall i :: 0 <= i < |a| ==> Canonical(a[i])
    ensures var t := ItemsTo(a, r); t != [] && (t[0] == 93 <==> a == [])
  {
    if a != [] {
      HeadTellsKind(a[0], AfterItem(a, r));
    }
  }

  lemma {:induction false} FieldsPrefixFree(a: seq<Field>, b: seq<Field>, r: Text, s: Text)
    requires (forall i :: 0 <= i < |a| ==> Canonical(a[i].value))
        && (forall i :: 0 <= i < |b| ==> Canonical(b[i].value))
    requires FieldsTo(a, r) == FieldsTo(b, s)
    ensures a == b && r == s
    decreases a, 2
  {
    FieldsHead(a, r);
    FieldsHead(b, s);
    if a == [] {
      SameHead(125, r, 125, s);
    } else {
      FieldPrefixFree(a[0], b[0], AfterField(a, r), AfterField(b, s));
      SameHead(if |a| == 1 then 125 else 44, if |a| == 1 then r else FieldsTo(a[1..], r),
               if |b| == 1 then 125 else 44, if |b| == 1 then s else FieldsTo(b[1..], s));
      if |a| > 1 {
        FieldsPrefixFree(a[1..], b[1..], r, s);
      }
      assert a == [a[0]] + a[1..] && b == [b[0]] + b[1..];
    }
  }

  function AfterField(a: seq<Field>, r: Text): (t: Text)
    requires a != []
    ensures Delimited(t)
    ensures FieldsTo(a, r) == FieldTo(a[0], t)
  {
    if |a| == 1 then [125] + r else [44] + FieldsTo(a[1..], r)
  }

  lemma FieldsHead(a: seq<Field>, r: Text)
    ensures var t := FieldsTo(a, r); t != [] && (t[0] == 125 <==> a == [])
  {
  }

  lemma {:induction false} FieldPrefixFree(f: Field, g: Field, r: Text, s: Text)
    requires Canonical(f.value) && Canonical(g.value) && Delimited(r) && Delimited(s)
    requires FieldTo(f, r) == FieldTo(g, s)
    ensures f == g && r == s
    decreases f, 1
  {
    QuotePrefixFree(f.key, g.key, [58] + PrintTo(f.value, r), [58] + PrintTo(g.value, s));
    SameHead(58, PrintTo(f.value, r), 58, PrintTo(g.value, s));
    PrintPrefixFree(f.value, g.value, r, s);
  }

  // ----- The sorted value stands for all orders of insertion ----------------------------------------------------

  lemma {:induction false} BeforeIsStrict(a: Text, b: Text)
    ensures !(Before(a, b) && Before(b, a)) && !Before(a, a)
  {
    if a != [] && b != [] {
      BeforeIsStrict(a[1..], b[1..]);
    }
    if a != [] {
      BeforeIsStrict(a[1..], a[1..]);
    }
  }

  lemma {:induction false} BeforeIsTransitive(a: Text, b: Text, c: Text)
    requires Before(a, b) && Before(b, c)
    ensures Before(a, c)
  {
    if a != [] && a[0] == b[0] == c[0] {
      BeforeIsTransitive(a[1..], b[1..], c[1..]);
    }
  }

  lemma {:induction false} BeforeIsTotal(a: Text, b: Text)
    requires a != b
    ensures Before(a, b) || Before(b, a)
  {
    if a != [] && b != [] && a[0] == b[0] {
      assert a == [a[0]] + a[1..] && b == [b[0]] + b[1..];
      BeforeIsTotal(a[1..], b[1..]);
    }
  }

  /** Strictly ascending keys. */
  predicate Ascending(fields: seq<Field>) {
    forall i, j :: 0 <= i < j < |fields| ==> Before(fields[i].key, fields[j].key)
  }

  predicate DistinctKeys(fields: seq<Field>) {
    forall i, j :: 0 <= i < j < |fields| ==> fields[i].key != fields[j].key
  }

  lemma {:induction false} InsertAscends(f: Field, fields: seq<Field>)
    requires Ascending(fields) && forall g :: g in fields ==> g.key != f.key
    ensures Ascending(Insert(f, fields))
  {
    if fields != [] {
      var first, rest := fields[0], fields[1..];
      if Before(f.key, first.key) {
        forall j | 0 < j < |fields| ensures Before(f.key, fields[j].key) {
          BeforeIsTransitive(f.key, first.key, fields[j].key);
        }
      } else {
        BeforeIsTotal(f.key, first.key);
        InsertAscends(f, rest);
        var r := Insert(f, rest);
        forall j | 0 <= j < |r| ensures Before(first.key, r[j].key) {
          assert r[j] in r;
        }
      }
    }
  }

  lemma {:induction false} SortAscends(fields: seq<Field>)
    requires DistinctKeys(fields)
    ensures Ascending(Sort(fields))
  {
    if fields != [] {
      SortAscends(fields[1..]);
      InsertAscends(fields[0], Sort(fields[1..]));
    }
  }

  /** There is one ascending list of given fields. */
  lemma {:induction false} AscendingIsUnique(a: seq<Field>, b: seq<Field>)
    requires Ascending(a) && Ascending(b) && forall f :: f in a <==> f in b
    ensures a == b
  {
    NotAlone(a, b);
    NotAlone(b, a);
    if a != [] {
      FirstIsLeast(a, b);
      FirstIsLeast(b, a);
      BeforeIsStrict(a[0].key, b[0].key);
      assert a[0] in b && b[0] in a;
      forall f ensures f in a[1..] <==> f in b[1..] {
        InTail(a, f);
        InTail(b, f);
      }
      AscendingIsUnique(a[1..], b[1..]);
    }
  }

  lemma NotAlone(a: seq<Field>, b: seq<Field>)
    requires forall f :: f in a <==> f in b
    ensures a != [] ==> b != []
  {
    if a != [] {
      assert a[0] in a;
    }
  }

  lemma FirstIsLeast(a: seq<Field>, b: seq<Field>)
    requires a != [] && b != [] && Ascending(b) && a[0] in b
    ensures a[0] == b[0] || Before(b[0].key, a[0].key)
  {
  }

  lemma InTail(a: seq<Field>, f: Field)
    requires a != [] && Ascending(a)
    ensures f in a[1..] <==> f in a && f != a[0]
  {
    BeforeIsStrict(a[0].key, a[0].key);
    if f in a && f != a[0] {
      var i :| 0 <= i < |a| && a[i] == f;
      assert a[1..][i - 1] == f;
    }
  }

  lemma {:induction false} SortedKeepsCanonical(v: Value)
    ensures Canonical(Sorted(v)) == Canonical(v)
    decreases v
  {
    match v
    case Array(items) =>
      forall i | 0 <= i < |items| ensures Canonical(SortedItems(items)[i]) == Canonical(items[i]) {
        SortedKeepsCanonical(items[i]);
      }
    case Record(fields) =>
      var s := SortedFields(fields);
      var r := Sort(s);
      forall i | 0 <= i < |fields| ensures Canonical(s[i].value) == Canonical(fields[i].value) {
        SortedKeepsCanonical(fields[i].value);
      }
      forall i | 0 <= i < |r| ensures r[i] in s {
        assert r[i] in r;
      }
      forall i | 0 <= i < |s| ensures s[i] in r {
        assert s[i] in s;
      }
    case _ =>
  }

  /** Two values sort to the same one exactly if they are equal with records read as maps. */
  lemma {:induction false} SortedEqualExactly(v: Value, w: Value)
    requires Keyed(v) && Keyed(w)
    ensures Sorted(v) == Sorted(w) <==> Same(v, w)
    decreases v
  {
    match (v, w)
    case (Array(a), Array(b)) =>
      forall i | 0 <= i < |a| && i < |b| ensures Sorted(a[i]) == Sorted(b[i]) <==> Same(a[i], b[i]) {
        SortedEqualExactly(a[i], b[i]);
      }
      SortedArraysEqualExactly(a, b);
    case (Record(a), Record(b)) =>
      forall i, j | 0 <= i < |a| && 0 <= j < |b|
        ensures Sorted(a[i].value) == Sorted(b[j].value) <==> Same(a[i].value, b[j].value)
      {
        SortedEqualExactly(a[i].value, b[j].value);
      }
      SortedRecordsEqualExactly(a, b);
    case _ =>
  }

  lemma SortedArraysEqualExactly(a: seq<Value>, b: seq<Value>)
    requires forall i :: 0 <= i < |a| && i < |b| ==> (Sorted(a[i]) == Sorted(b[i]) <==> Same(a[i], b[i]))
    ensures Sorted(Array(a)) == Sorted(Array(b)) <==> Same(Array(a), Array(b))
  {
    var x, y := SortedItems(a), SortedItems(b);
    assert |x| == |a| && |y| == |b|;
    if |a| == |b| && forall i :: 0 <= i < |a| ==> Same(a[i], b[i]) {
      assert x == y;
    }
    if x == y {
      forall i | 0 <= i < |a| ensures Same(a[i], b[i]) {
        assert x[i] == y[i];
      }
    }
  }

  /** The same keys, and values that sort alike under them. */
  ghost predicate EqualMaps(a: seq<Field>, b: seq<Field>) {
    && Keys(a) == Keys(b)
    && forall i, j :: 0 <= i < |a| && 0 <= j < |b| && a[i].key == b[j].key ==> Sorted(a[i].value) == Sorted(b[j].value)
  }

  lemma SortedRecordsEqualExactly(a: seq<Field>, b: seq<Field>)
    requires DistinctKeys(a) && DistinctKeys(b)
    ensures Sort(SortedFields(a)) == Sort(SortedFields(b)) <==> EqualMaps(a, b)
  {
    var x, y := Sort(SortedFields(a)), Sort(SortedFields(b));
    if EqualMaps(a, b) {
      EqualMapsHaveEqualFields(a, b);
      EqualMapsHaveEqualFields(b, a);
      SortAscends(SortedFields(a));
      SortAscends(SortedFields(b));
      AscendingIsUnique(x, y);
    }
    if x == y {
      EqualFieldsMakeEqualMaps(a, b);
    }
  }

  lemma EqualMapsHaveEqualFields(a: seq<Field>, b: seq<Field>)
    requires EqualMaps(a, b)
    ensures forall f :: f in SortedFields(a) ==> f in SortedFields(b)
  {
    var x, y := SortedFields(a), SortedFields(b);
    forall f | f in x ensures f in y {
      var i :| 0 <= i < |x| && x[i] == f;
      assert a[i].key in Keys(b);
      var j :| 0 <= j < |b| && b[j].key == a[i].key;
      assert y[j] == f;
    }
  }

  lemma EqualFieldsMakeEqualMaps(a: seq<Field>, b: seq<Field>)
    requires DistinctKeys(a) && DistinctKeys(b)
    requires Sort(SortedFields(a)) == Sort(SortedFields(b))
    ensures EqualMaps(a, b)
  {
    var x, y := SortedFields(a), SortedFields(b);
    assert forall f :: f in x <==> f in y by {
      assert forall f :: f in Sort(x) <==> f in Sort(y);
    }
    KeysOfFields(a, b);
    KeysOfFields(b, a);
    forall i, j | 0 <= i < |a| && 0 <= j < |b| && a[i].key == b[j].key
      ensures Sorted(a[i].value) == Sorted(b[j].value)
    {
      assert x[i] in y;
      var k :| 0 <= k < |y| && y[k] == x[i];
      assert k == j;
    }
  }

  lemma KeysOfFields(a: seq<Field>, b: seq<Field>)
    requires forall f :: f in SortedFields(a) ==> f in SortedFields(b)
    ensures Keys(a) <= Keys(b)
  {
    var x, y := SortedFields(a), SortedFields(b);
    forall i | 0 <= i < |a| ensures a[i].key in Keys(b) {
      assert x[i] in y;
      var j :| 0 <= j < |y| && y[j] == x[i];
      assert b[j].key == a[i].key;
    }
  }

  /**
   Canonical text is injective up to insertion order: two values have the same text exactly if they are
   equal with records read as maps.
   */
  lemma CanonicalJsonInjective(v: Value, w: Value)
    requires Keyed(v) && Keyed(w) && Canonical(v) && Canonical(w)
    ensures CanonicalJson(v) == CanonicalJson(w) <==> Same(v, w)
  {
    SortedKeepsCanonical(v);
    SortedKeepsCanonical(w);
    SortedEqualExactly(v, w);
    if PrintTo(Sorted(v), []) == PrintTo(Sorted(w), []) {
      PrintPrefixFree(Sorted(v), Sorted(w), [], []);
    }
  }
}
