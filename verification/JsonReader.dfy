/** A reader of JSON text, and what it makes of canonical text. */
module JsonReader {
  import opened CanonicalJson
  import opened CodeUnits
  import opened Common

  // From the grammar of RFC 8259, for texts without insignificant whitespace and for whole numbers.

  datatype Parsed<+T> = Parsed(value: T, rest: Text)

  const NULL: Text := ['n' as int, 'u' as int, 'l' as int, 'l' as int]
  const TRUE: Text := ['t' as int, 'r' as int, 'u' as int, 'e' as int]
  const FALSE: Text := ['f' as int, 'a' as int, 'l' as int, 's' as int, 'e' as int]

  predicate Is(t: Text, c: char) {
    t != [] && t[0] == c as int
  }

  predicate StartsWith(t: Text, word: Text) {
    |word| <= |t| && t[..|word|] == word
  }

  // ----- Numbers -----------------------------------------------------------------------------------------------

  predicate IsDecimal(c: CodeUnit) {
    '0' as int <= c <= '9' as int
  }

  /** The number that a text of digits stands for. */
  function ValueOf(digits: Text): int {
    if digits == [] then 0
    else ValueOf(digits[..|digits| - 1]) * 10 + (digits[|digits| - 1] - '0' as int)
  }

  function DigitCount(t: Text): (n: nat)
    ensures n <= |t| && forall i :: 0 <= i < n ==> IsDecimal(t[i])
    ensures n < |t| ==> !IsDecimal(t[n])
  {
    if t == [] || !IsDecimal(t[0]) then 0 else 1 + DigitCount(t[1..])
  }

  /** One digit, or more that do not start with 0. */
  function ReadDigits(t: Text): (r: Option<Parsed<int>>)
    ensures r.Some? ==> |r.value.rest| < |t|
  {
    var n := DigitCount(t);
    if n == 0 || (n > 1 && Is(t, '0')) then None else Some(Parsed(ValueOf(t[..n]), t[n..]))
  }

  function ReadNumber(t: Text): (r: Option<Parsed<Value>>)
    ensures r.Some? ==> |r.value.rest| < |t|
  {
    var minus := Is(t, '-');
    match ReadDigits(if minus then t[1..] else t)
    case None => None
    case Some(p) => Some(Parsed(Number(if minus then -p.value else p.value), p.rest))
  }

  // ----- Strings -----------------------------------------------------------------------------------------------

  function HexValue(c: CodeUnit): (r: Option<int>)
    ensures r.Some? ==> 0 <= r.value < 16
  {
    if '0' as int <= c <= '9' as int then Some(c - '0' as int)
    else if 'a' as int <= c <= 'f' as int then Some(c - 'a' as int + 10)
    else if 'A' as int <= c <= 'F' as int then Some(c - 'A' as int + 10)
    else None
  }

  /** Four hexadecimal digits. */
  function ReadHex(t: Text): (r: Option<Parsed<CodeUnit>>)
    ensures r.Some? ==> |r.value.rest| < |t|
  {
    if |t| < 4 then None
    else
      match (HexValue(t[0]), HexValue(t[1]), HexValue(t[2]), HexValue(t[3]))
      case (Some(a), Some(b), Some(c), Some(d)) =>
        var u: CodeUnit := ((a * 16 + b) * 16 + c) * 16 + d;
        Some(Parsed(u, t[4..]))
      case _ => None
  }

  /** The characters that a backslash and a letter stand for. */
  const ESCAPES: map<CodeUnit, CodeUnit> := map['"' as int := 34, '\\' as int := 92, '/' as int := 47, 'b' as int := 8,
                                               'f' as int := 12, 'n' as int := 10, 'r' as int := 13, 't' as int := 9]

  /** One code unit of a string, as it is or escaped; control characters must be escaped. */
  function ReadUnit(t: Text): (r: Option<Parsed<CodeUnit>>)
    ensures r.Some? ==> |r.value.rest| < |t|
  {
    if t == [] || t[0] < 0x20 then None
    else if !Is(t, '\\') then Some(Parsed(t[0], t[1..]))
    else if Is(t[1..], 'u') then ReadHex(t[2..])
    else if |t| > 1 && t[1] in ESCAPES then Some(Parsed(ESCAPES[t[1]], t[2..]))
    else None
  }

  /** A string after its opening quotation mark. */
  function ReadString(t: Text): (r: Option<Parsed<Text>>)
    ensures r.Some? ==> |r.value.rest| < |t|
  {
    if Is(t, '"') then Some(Parsed([], t[1..]))
    else
      match ReadUnit(t)
      case None => None
      case Some(u) =>
        match ReadString(u.rest)
        case None => None
        case Some(s) => Some(Parsed([u.value] + s.value, s.rest))
  }

  // ----- Values ------------------------------------------------------------------------------------------------

  /** The value at the start of a text, and the text after it. */
  function ReadValue(t: Text): (r: Option<Parsed<Value>>)
    ensures r.Some? ==> |r.value.rest| < |t|
    decreases |t|, 0
  {
    if StartsWith(t, NULL) then Some(Parsed(Null, t[|NULL|..]))
    else if StartsWith(t, TRUE) then Some(Parsed(Bool(true), t[|TRUE|..]))
    else if StartsWith(t, FALSE) then Some(Parsed(Bool(false), t[|FALSE|..]))
    else if Is(t, '"') then
      match ReadString(t[1..])
      case None => None
      case Some(p) => Some(Parsed(String(p.value), p.rest))
    else if Is(t, '[') then
      if Is(t[1..], ']') then Some(Parsed(Array([]), t[2..]))
      else
        match ReadItems(t[1..])
        case None => None
        case Some(p) => Some(Parsed(Array(p.value), p.rest))
    else if Is(t, '{') then
      if Is(t[1..], '}') then Some(Parsed(Record([]), t[2..]))
      else
        match ReadFields(t[1..])
        case None => None
        case Some(p) => Some(Parsed(Record(p.value), p.rest))
    else ReadNumber(t)
  }

  /** One value or more, with commas between them, up to and including the closing bracket. */
  function ReadItems(t: Text): (r: Option<Parsed<seq<Value>>>)
    ensures r.Some? ==> |r.value.rest| < |t|
    decreases |t|, 1
  {
    match ReadValue(t)
    case None => None
    case Some(p) =>
      if Is(p.rest, ']') then Some(Parsed([p.value], p.rest[1..]))
      else if Is(p.rest, ',') then
        match ReadItems(p.rest[1..])
        case None => None
        case Some(q) => Some(Parsed([p.value] + q.value, q.rest))
      else None
  }

  /** A key in quotation marks, a colon and a value. */
  function ReadField(t: Text): (r: Option<Parsed<Field>>)
    ensures r.Some? ==> |r.value.rest| < |t|
    decreases |t|, 1
  {
    if !Is(t, '"') then None
    else
      match ReadString(t[1..])
      case None => None
      case Some(k) =>
        if !Is(k.rest, ':') then None
        else
          match ReadValue(k.rest[1..])
          case None => None
          case Some(v) => Some(Parsed(Field(k.value, v.value), v.rest))
  }

  /** One field or more, with commas between them, up to and including the closing brace. */
  function ReadFields(t: Text): (r: Option<Parsed<seq<Field>>>)
    ensures r.Some? ==> |r.value.rest| < |t|
    decreases |t|, 2
  {
    match ReadField(t)
    case None => None
    case Some(p) =>
      if Is(p.rest, '}') then Some(Parsed([p.value], p.rest[1..]))
      else if Is(p.rest, ',') then
        match ReadFields(p.rest[1..])
        case None => None
        case Some(q) => Some(Parsed([p.value] + q.value, q.rest))
      else None
  }

  /** The value of a whole text, records in the order of the text. */
  function ReadJson(t: Text): Option<Value> {
    match ReadValue(t)
    case None => None
    case Some(p) => if p.rest == [] then Some(p.value) else None
  }

  // ----- What is printed is read ---------------------------------------------------------------------------------

  lemma StartsIs(c: CodeUnit, rest: Text)
    ensures ([c] + rest)[0] == c && ([c] + rest)[1..] == rest
  {
  }

  lemma HexDigitValue(d: int)
    requires 0 <= d < 16
    ensures HexValue(HexDigit(d)) == Some(d)
  {
  }

  lemma HexIsRead(u: CodeUnit, rest: Text)
    ensures ReadHex(HexTo(u, rest)) == Some(Parsed(u, rest))
  {
    hide HexDigit, HexValue;
    var t := HexTo(u, rest);
    HexDigitValue(u / 0x1000);
    HexDigitValue(u / 0x100 % 16);
    HexDigitValue(u / 0x10 % 16);
    HexDigitValue(u % 16);
    FromDigits(u);
    assert t[0] == HexDigit(u / 0x1000) && t[1] == HexDigit(u / 0x100 % 16);
    assert t[2] == HexDigit(u / 0x10 % 16) && t[3] == HexDigit(u % 16);
    assert t[4..] == rest;
  }

  lemma UnitIsRead(u: CodeUnit, lone: bool, rest: Text)
    ensures ReadUnit(EscapedTo(u, lone, rest)) == Some(Parsed(u, rest))
    ensures !Is(EscapedTo(u, lone, rest), '"')
  {
    var t := EscapedTo(u, lone, rest);
    if Short(u).Some? {
      assert t[0] == 92 && t[1] == Short(u).value && t[2..] == rest;
    } else if u < 0x20 || lone {
      assert t[0] == 92 && t[1..] == [117] + HexTo(u, rest) && t[1..][0] == 117 && t[2..] == HexTo(u, rest);
      HexIsRead(u, rest);
    } else {
      assert t[0] == u && t[1..] == rest;
    }
  }

  lemma {:induction false} StringIsRead(s: Text, afterHigh: bool, rest: Text)
    ensures ReadString(QuotedTo(s, afterHigh, rest)) == Some(Parsed(s, rest))
    decreases |s|
  {
    hide EscapedTo, ReadUnit;
    if s == [] {
      StartsIs(34, rest);
    } else {
      var tail := QuotedTo(s[1..], IsHigh(s[0]), rest);
      StringIsRead(s[1..], IsHigh(s[0]), rest);
      UnitIsRead(s[0], Lone(s, afterHigh), tail);
      assert s == [s[0]] + s[1..];
    }
  }

  lemma {:induction false} DigitsHaveValue(n: nat)
    ensures ValueOf(Digits(n)) == n && (|Digits(n)| > 1 ==> !Is(Digits(n), '0'))
  {
    var t := Digits(n);
    if n >= 10 {
      DigitsHaveValue(n / 10);
      assert t[..|t| - 1] == Digits(n / 10) && t[|t| - 1] == 48 + n % 10;
      assert t[0] == Digits(n / 10)[0];
      if |Digits(n / 10)| == 1 {
        assert Digits(n / 10) == [48 + n / 10];
      }
    } else {
      assert t[..|t| - 1] == [];
    }
  }

  lemma {:induction false} CountIs(digits: Text, rest: Text)
    requires Delimited(rest) && forall i :: 0 <= i < |digits| ==> IsDecimal(digits[i])
    ensures DigitCount(digits + rest) == |digits|
  {
    if digits == [] {
      assert digits + rest == rest;
    } else {
      assert (digits + rest)[0] == digits[0] && (digits + rest)[1..] == digits[1..] + rest;
      CountIs(digits[1..], rest);
    }
  }

  lemma DigitsAreRead(n: nat, rest: Text)
    requires Delimited(rest)
    ensures ReadDigits(Digits(n) + rest) == Some(Parsed(n, rest))
  {
    var t := Digits(n);
    DigitsHaveValue(n);
    CountIs(t, rest);
    assert (t + rest)[..|t|] == t && (t + rest)[|t|..] == rest && (t + rest)[0] == t[0];
  }

  lemma NumberIsRead(n: int, rest: Text)
    requires Delimited(rest)
    ensures ReadNumber(DecimalTo(n, rest)) == Some(Parsed(Number(n), rest))
  {
    hide ReadDigits;
    if n < 0 {
      StartsIs(45, Digits(-n) + rest);
      DigitsAreRead(-n, rest);
    } else {
      assert (Digits(n) + rest)[0] == Digits(n)[0];
      DigitsAreRead(n, rest);
    }
  }

  function WordOf(v: Value): Text
    requires v.Null? || v.Bool?
  {
    if v == Null then NULL else if v == Bool(true) then TRUE else FALSE
  }

  lemma WordIsPrinted(v: Value, rest: Text)
    requires v.Null? || v.Bool?
    ensures PrintTo(v, rest) == WordOf(v) + rest
  {
  }

  lemma WordStarts(word: Text, rest: Text)
    ensures StartsWith(word + rest, word) && (word + rest)[|word|..] == rest
    ensures forall w :: w != [] && word != [] && w[0] != word[0] ==> !StartsWith(word + rest, w)
  {
    forall w | w != [] && word != [] && StartsWith(word + rest, w) ensures w[0] == word[0] {
      assert (word + rest)[..|w|][0] == word[0];
    }
  }

  lemma WordIsRead(v: Value, rest: Text)
    requires v.Null? || v.Bool?
    ensures ReadValue(PrintTo(v, rest)) == Some(Parsed(v, rest))
  {
    hide PrintTo, StartsWith, ReadString, ReadNumber, ReadItems, ReadFields;
    WordIsPrinted(v, rest);
    WordStarts(WordOf(v), rest);
    assert NULL[0] != TRUE[0] && TRUE[0] != FALSE[0] && FALSE[0] != NULL[0];
  }

  /** A value starts with a character of its own kind. */
  lemma KindShows(v: Value, rest: Text)
    requires Canonical(v)
    ensures var t := PrintTo(v, rest);
      && t != [] && !Is(t, ']') && (v.String? <==> Is(t, '"'))
      && (v.Array? <==> Is(t, '[')) && (v.Record? <==> Is(t, '{'))
      && (!v.Null? && !v.Bool? ==> !StartsWith(t, NULL) && !StartsWith(t, TRUE) && !StartsWith(t, FALSE))
  {
    HeadTellsKind(v, rest);
    var t := PrintTo(v, rest);
    assert StartsWith(t, NULL) ==> t[0] == t[..4][0] == 'n' as int;
    assert StartsWith(t, TRUE) ==> t[0] == t[..4][0] == 't' as int;
    assert StartsWith(t, FALSE) ==> t[0] == t[..5][0] == 'f' as int;
  }

  lemma {:induction false} PrintedIsRead(v: Value, rest: Text)
    requires Canonical(v) && Delimited(rest)
    ensures ReadValue(PrintTo(v, rest)) == Some(Parsed(v, rest))
    decreases v, 0
  {
    hide StartsWith, ReadString, ReadNumber, ReadItems, ReadFields, QuotedTo, DecimalTo, ItemsTo, FieldsTo;
    KindShows(v, rest);
    match v
    case Number(n) => NumberIsRead(n, rest);
    case String(s) =>
      StringIsRead(s, false, rest);
      StartsIs(34, QuotedTo(s, false, rest));
    case Array(items) =>
      StartsIs(91, ItemsTo(items, rest));
      ItemsAreRead(items, rest);
    case Record(fields) =>
      StartsIs(123, FieldsTo(fields, rest));
      FieldsAreRead(fields, rest);
    case _ => WordIsRead(v, rest);
  }

  lemma {:induction false} ItemsAreRead(items: seq<Value>, rest: Text)
    requires forall i :: 0 <= i < |items| ==> Canonical(items[i])
    ensures var t := ItemsTo(items, rest);
      && (items == [] ==> Is(t, ']') && t[1..] == rest)
      && (items != [] ==> !Is(t, ']') && ReadItems(t) == Some(Parsed(items, rest)))
    decreases items, 1
  {
    hide PrintTo, ReadValue;
    StartsIs(93, rest);
    if items != [] {
      var after := AfterItem(items, rest);
      KindShows(items[0], after);
      PrintedIsRead(items[0], after);
      assert items == [items[0]] + items[1..] && (|items| == 1 ==> items == [items[0]]);
      if |items| > 1 {
        ItemsAreRead(items[1..], rest);
        StartsIs(44, ItemsTo(items[1..], rest));
      }
    }
  }

  lemma {:induction false} FieldIsRead(f: Field, rest: Text)
    requires Canonical(f.value) && Delimited(rest)
    ensures ReadField(FieldTo(f, rest)) == Some(Parsed(f, rest)) && Is(FieldTo(f, rest), '"')
    decreases f, 1
  {
    hide PrintTo, ReadValue, QuotedTo, ReadString;
    var value := [58] + PrintTo(f.value, rest);
    StartsIs(34, QuotedTo(f.key, false, value));
    StringIsRead(f.key, false, value);
    StartsIs(58, PrintTo(f.value, rest));
    PrintedIsRead(f.value, rest);
  }

  lemma {:induction false} FieldsAreRead(fields: seq<Field>, rest: Text)
    requires forall i :: 0 <= i < |fields| ==> Canonical(fields[i].value)
    ensures var t := FieldsTo(fields, rest);
      && (fields == [] ==> Is(t, '}') && t[1..] == rest)
      && (fields != [] ==> !Is(t, '}') && ReadFields(t) == Some(Parsed(fields, rest)))
    decreases fields, 2
  {
    hide FieldTo, ReadField;
    StartsIs(125, rest);
    if fields != [] {
      var after := AfterField(fields, rest);
      FieldIsRead(fields[0], after);
      assert fields == [fields[0]] + fields[1..] && (|fields| == 1 ==> fields == [fields[0]]);
      if |fields| > 1 {
        FieldsAreRead(fields[1..], rest);
        StartsIs(44, FieldsTo(fields[1..], rest));
      }
    }
  }

  // ----- How numbers and strings are spelled ---------------------------------------------------------------------

  /** A minus for numbers below 0 alone, and the digits of the number, with no 0 in front. */
  lemma NumberSpelled(n: int, rest: Text) returns (digits: Text)
    ensures DecimalTo(n, rest) == if n < 0 then ['-' as int] + (digits + rest) else digits + rest
    ensures digits != [] && (forall i :: 0 <= i < |digits| ==> IsDecimal(digits[i]))
    ensures ValueOf(digits) == (if n < 0 then -n else n) && (|digits| > 1 ==> digits[0] != '0' as int)
  {
    digits := Digits(if n < 0 then -n else n);
    DigitsHaveValue(if n < 0 then -n else n);
  }

  /** The letters of the short escapes. */
  const LETTERS: map<CodeUnit, CodeUnit> := map[8 := 'b' as int, 9 := 't' as int, 10 := 'n' as int, 12 := 'f' as int,
                                               13 := 'r' as int, 34 := '"' as int, 92 := '\\' as int]

  const HEX: Text := ['0' as int, '1' as int, '2' as int, '3' as int, '4' as int, '5' as int, '6' as int, '7' as int,
                      '8' as int, '9' as int, 'a' as int, 'b' as int, 'c' as int, 'd' as int, 'e' as int, 'f' as int]

  /** One half of a surrogate pair, without the other half beside it. */
  ghost predicate HalfPair(s: Text, i: nat)
    requires i < |s|
  {
    || (0xD800 <= s[i] <= 0xDBFF && !(i + 1 < |s| && 0xDC00 <= s[i + 1] <= 0xDFFF))
    || (0xDC00 <= s[i] <= 0xDFFF && !(i > 0 && 0xD800 <= s[i - 1] <= 0xDBFF))
  }

  /** A code unit goes out as it is, unless it is a quotation mark, a backslash, a control character or half a pair. */
  ghost function Spelled(s: Text, i: nat): Text
    requires i < |s|
  {
    var u := s[i];
    if u in LETTERS then ['\\' as int, LETTERS[u]]
    else if u < 0x20 || HalfPair(s, i) then
      ['\\' as int, 'u' as int] + [HEX[u / 4096], HEX[u / 256 % 16], HEX[u / 16 % 16], HEX[u % 16]]
    else [u]
  }

  ghost function SpelledFrom(s: Text, i: nat): Text
    requires i <= |s|
    decreases |s| - i
  {
    if i == |s| then [] else Spelled(s, i) + SpelledFrom(s, i + 1)
  }

  lemma HexSpelled(d: int)
    requires 0 <= d < 16
    ensures HexDigit(d) == HEX[d]
  {
  }

  lemma HexToSpelled(u: CodeUnit, rest: Text)
    ensures HexTo(u, rest) == [HEX[u / 4096], HEX[u / 256 % 16], HEX[u / 16 % 16], HEX[u % 16]] + rest
  {
    hide HexDigit;
    HexSpelled(u / 4096);
    HexSpelled(u / 256 % 16);
    HexSpelled(u / 16 % 16);
    HexSpelled(u % 16);
  }

  lemma LoneIsHalfPair(s: Text, i: nat)
    requires i < |s|
    ensures Lone(s[i..], i > 0 && IsHigh(s[i - 1])) <==> HalfPair(s, i)
  {
  }

  lemma ShortSpelled(u: CodeUnit)
    ensures Short(u) == if u in LETTERS then Some(LETTERS[u]) else None
  {
  }

  lemma UnitSpelled(s: Text, i: nat, rest: Text)
    requires i < |s|
    ensures EscapedTo(s[i], Lone(s[i..], i > 0 && IsHigh(s[i - 1])), rest) == Spelled(s, i) + rest
  {
    hide HexTo, Lone, HalfPair, Short;
    HexToSpelled(s[i], rest);
    LoneIsHalfPair(s, i);
    ShortSpelled(s[i]);
  }

  lemma {:induction false} QuotedSpelled(s: Text, i: nat, rest: Text)
    requires i <= |s|
    ensures QuotedTo(s[i..], i > 0 && IsHigh(s[i - 1]), rest) == SpelledFrom(s, i) + (['"' as int] + rest)
    decreases |s| - i
  {
    hide EscapedTo, Spelled, Lone;
    if i < |s| {
      QuotedSpelled(s, i + 1, rest);
      assert s[i..][0] == s[i] && s[i..][1..] == s[i + 1..];
      UnitSpelled(s, i, SpelledFrom(s, i + 1) + (['"' as int] + rest));
    }
  }

  /** A string is spelled unit by unit, between quotation marks. */
  lemma StringSpelled(s: Text, rest: Text)
    ensures QuoteTo(s, rest) == ['"' as int] + SpelledFrom(s, 0) + ['"' as int] + rest
  {
    QuotedSpelled(s, 0, rest);
    assert s[0..] == s;
  }

  // ----- What canonical text says ------------------------------------------------------------------------------

  /** `a` comes first: at the first place where the texts differ it has the smaller code unit, or has ended. */
  ghost predicate Earlier(a: Text, b: Text) {
    exists k :: 0 <= k < |b| && k <= |a| && a[..k] == b[..k] && (k == |a| || a[k] < b[k])
  }

  /** In every record, the keys rise from each field to all later ones. */
  ghost predicate Rising(v: Value) {
    match v
    case Array(items) => forall i :: 0 <= i < |items| ==> Rising(items[i])
    case Record(fields) =>
      && (forall i :: 0 <= i < |fields| ==> Rising(fields[i].value))
      && (forall i, j :: 0 <= i < j < |fields| ==> Earlier(fields[i].key, fields[j].key))
    case _ => true
  }

  lemma {:induction false} BeforeIsEarlier(a: Text, b: Text)
    ensures Before(a, b) <==> Earlier(a, b)
  {
    if a == [] || b == [] || a[0] != b[0] {
      if Before(a, b) {
        assert a[..0] == b[..0];
      }
    } else {
      var c, d := a[1..], b[1..];
      BeforeIsEarlier(c, d);
      if k :| 0 <= k < |d| && k <= |c| && c[..k] == d[..k] && (k == |c| || c[k] < d[k]) {
        assert a[..k + 1] == [a[0]] + c[..k] && b[..k + 1] == [b[0]] + d[..k];
      }
      if k :| 0 <= k < |b| && k <= |a| && a[..k] == b[..k] && (k == |a| || a[k] < b[k]) {
        assert k > 0 && c[..k - 1] == a[..k][1..] && d[..k - 1] == b[..k][1..];
      }
    }
  }

  lemma {:induction false} SortedRises(v: Value)
    requires Keyed(v)
    ensures Rising(Sorted(v))
    decreases v
  {
    match v
    case Array(items) =>
      forall i | 0 <= i < |items| ensures Rising(SortedItems(items)[i]) {
        SortedRises(items[i]);
      }
    case Record(fields) =>
      var s, r := SortedFields(fields), Sort(SortedFields(fields));
      SortAscends(s);
      forall i, j | 0 <= i < j < |r| ensures Earlier(r[i].key, r[j].key) {
        BeforeIsEarlier(r[i].key, r[j].key);
      }
      forall i | 0 <= i < |r| ensures Rising(r[i].value) {
        assert r[i] in r && r[i] in s;
        var k :| 0 <= k < |s| && s[k] == r[i];
        SortedRises(fields[k].value);
      }
    case _ =>
  }

  lemma {:induction false} SortedIsSame(v: Value)
    requires Keyed(v)
    ensures Same(Sorted(v), v)
    decreases v
  {
    match v
    case Array(items) =>
      forall i | 0 <= i < |items| ensures Same(SortedItems(items)[i], items[i]) {
        SortedIsSame(items[i]);
      }
    case Record(fields) =>
      var s, r := SortedFields(fields), Sort(SortedFields(fields));
      forall i, j | 0 <= i < |r| && 0 <= j < |fields| && r[i].key == fields[j].key
        ensures Same(r[i].value, fields[j].value)
      {
        assert r[i] in r && r[i] in s;
        var k :| 0 <= k < |s| && s[k] == r[i];
        assert k == j;
        SortedIsSame(fields[j].value);
      }
      SameKeys(fields, r);
    case _ =>
  }

  lemma SameKeys(fields: seq<Field>, r: seq<Field>)
    requires r == Sort(SortedFields(fields))
    ensures Keys(r) == Keys(fields)
  {
    var s := SortedFields(fields);
    forall k | k in Keys(r) ensures k in Keys(fields) {
      var i :| 0 <= i < |r| && r[i].key == k;
      assert r[i] in r && r[i] in s;
      var j :| 0 <= j < |s| && s[j] == r[i];
      assert fields[j].key == k;
    }
    forall k | k in Keys(fields) ensures k in Keys(r) {
      var i :| 0 <= i < |fields| && fields[i].key == k;
      assert s[i] in s && s[i] in r;
      var j :| 0 <= j < |r| && r[j] == s[i];
      assert r[j].key == k;
    }
  }

  /**
   The canonical text is JSON, and says the value, with records as maps; the keys of each record rise by code unit
   in it.
   */
  lemma CanonicalTextIsRead(v: Value)
    requires Keyed(v) && Canonical(v)
    ensures CanonicalJson.CanonicalJson(v).Some?
    ensures var r := ReadJson(CanonicalJson.CanonicalJson(v).value); r.Some? && Same(r.value, v) && Rising(r.value)
  {
    SortedKeepsCanonical(v);
    PrintedIsRead(Sorted(v), []);
    SortedRises(v);
    SortedIsSame(v);
  }

  /** A part that the printer refuses: a number out of the safe range, or what is no JSON. */
  ghost predicate Refused(v: Value) {
    v.NonCanonical? || (v.Number? && !(-9_007_199_254_740_991 <= v.n <= 9_007_199_254_740_991))
  }

  ghost predicate Holds(v: Value, part: Value) {
    || v == part
    || (v.Array? && exists i :: 0 <= i < |v.items| && Holds(v.items[i], part))
    || (v.Record? && exists i :: 0 <= i < |v.fields| && Holds(v.fields[i].value, part))
  }

  /** There is a canonical text unless the value holds a part that is refused. */
  lemma {:induction false} RefusedExactly(v: Value)
    ensures CanonicalJson.CanonicalJson(v) == None <==> exists part :: Holds(v, part) && Refused(part)
    decreases v
  {
    match v
    case Array(items) =>
      forall i | 0 <= i < |items|
        ensures Canonical(items[i]) <==> !exists part :: Holds(items[i], part) && Refused(part)
      {
        RefusedExactly(items[i]);
      }
    case Record(fields) =>
      forall i | 0 <= i < |fields|
        ensures Canonical(fields[i].value) <==> !exists part :: Holds(fields[i].value, part) && Refused(part)
      {
        RefusedExactly(fields[i].value);
      }
    case _ => assert Holds(v, v);
  }
}
