/**
 Lists of allowed hosts: the grammar of the development-server service, the grammar of the connector, and
 the lists that pass from one to the other.
 */
module AllowedHosts {
  import opened Common
  import opened Numerals
  import opened Texts

  const MAX_HOSTS := 16

  /** Trimming and lower-casing, which are not part of this model. */
  type Normalizer = string -> string

  predicate IsLabelChar(c: char) {
    IsDigit(c) || 'a' <= c <= 'z' || c == '-'
  }

  predicate IsAlphanumeric(c: char) {
    IsDigit(c) || 'a' <= c <= 'z'
  }

  predicate IsHostText(s: string) {
    forall i :: 0 <= i < |s| ==> IsLabelChar(s[i]) || s[i] == '.'
  }

  /** Text of small letters, digits, hyphens and dots has nothing to trim and is lower case. */
  ghost predicate KeepsHostText(norm: Normalizer) {
    forall s :: IsHostText(s) ==> norm(s) == s
  }

  // ----- The service's grammar -----------------------------------------------------------------------------------

  /** A number as text. */
  function Decimal(n: nat): (s: string)
    ensures s != "" && AreDigits(s)
  {
    if n < 10 then [('0' as int + n) as char] else Decimal(n / 10) + [('0' as int + n % 10) as char]
  }

  predicate ServicePart(part: string) {
    1 <= |part| <= 3 && AreDigits(part) && 0 <= NumberOf(part) <= 255 && Decimal(NumberOf(part)) == part
  }

  predicate ServiceIPv4(value: string) {
    var parts := Split(value);
    |parts| == 4 && forall i :: 0 <= i < |parts| ==> ServicePart(parts[i])
  }

  /** One letter or digit; or up to sixty-three characters that start and end with one. */
  predicate ServiceLabel(name: string) {
    && 1 <= |name| && IsAlphanumeric(name[0])
    && (|name| == 1 || (|name| - 2 <= 61 && IsAlphanumeric(name[|name| - 1])
                          && forall i :: 1 <= i < |name| - 1 ==> IsLabelChar(name[i])))
  }

  predicate Excluded(c: char) {
    c in {':', '/', '\\', ',', '*', '?', ' ', '\t', '\n', '\r', '\U{000b}', '\U{000c}', '\U{00a0}', '\U{1680}',
          '\U{2028}',
          '\U{2029}', '\U{202f}', '\U{205f}', '\U{3000}', '\U{feff}'} || '\U{2000}' <= c <= '\U{200a}'
  }

  predicate IsValidHost(value: string) {
    if |value| > 253 || exists i :: 0 <= i < |value| && Excluded(value[i]) then false
    else if ServiceIPv4(value) then true
    else
      var labels := Split(value);
      |labels| >= 2 && forall i :: 0 <= i < |labels| ==> ServiceLabel(labels[i])
  }

  // ----- The connector's grammar ---------------------------------------------------------------------------------

  predicate ConnectorPart(part: string) {
    1 <= |part| <= 3 && AreDigits(part) && !(|part| > 1 && part[0] == '0') && 0 <= NumberOf(part) <= 255
  }

  predicate ConnectorIPv4(value: string) {
    var parts := Split(value);
    |parts| == 4 && forall i :: 0 <= i < |parts| ==> ConnectorPart(parts[i])
  }

  predicate ConnectorLabel(name: string) {
    && 0 < |name| <= 63 && IsAlphanumeric(name[0])
    && (|name| == 1 || (IsAlphanumeric(name[|name| - 1]) && forall i :: 1 <= i < |name| - 1 ==> IsLabelChar(name[i])))
  }

  predicate DoubleDotAt(s: string, i: int) {
    0 <= i < |s| - 1 && s[i] == '.' && s[i + 1] == '.'
  }

  predicate IsNormalizedAllowedHost(value: string, norm: Normalizer) {
    if value == "" || |value| > 253 || value != norm(value) then false
    else if ConnectorIPv4(value) then true
    else if value[|value| - 1] == '.' || exists i :: 0 <= i < |value| && DoubleDotAt(value, i) then false
    else
      var labels := Split(value);
      |labels| >= 2 && forall i :: 0 <= i < |labels| ==> ConnectorLabel(labels[i])
  }

  // ----- The grammars agree ----------------------------------------------------------------------------------------

  lemma {:induction false} NumberOfAppend(s: string, c: char)
    requires AreDigits(s) && IsDigit(c)
    ensures NumberOf(s + [c]) == 10 * NumberOf(s) + DigitOf(c)
  {
    if s == "" {
      assert s + [c] == [c] && [c][1..] == "";
      assert Pow10(0) == 1;
    } else {
      assert (s + [c])[0] == s[0] && (s + [c])[1..] == s[1..] + [c];
      NumberOfAppend(s[1..], c);
      var d, p := DigitOf(s[0]), Pow10(|s| - 1);
      assert Pow10(|s|) == 10 * p;
      TenTimes(d, p);
    }
  }

  lemma TenTimes(d: nat, p: nat)
    ensures d * (10 * p) == 10 * (d * p)
  {
  }

  lemma {:induction false} DecimalIsNumeral(n: nat)
    ensures IsNumeral(Decimal(n)) && NumberOf(Decimal(n)) == n
    ensures n > 0 ==> Decimal(n)[0] != '0'
  {
    var c := ('0' as int + n % 10) as char;
    if n < 10 {
      NumberOfAppend("", c);
      assert "" + [c] == [c];
    } else {
      DecimalIsNumeral(n / 10);
      NumberOfAppend(Decimal(n / 10), c);
    }
  }

  /** Printing the number of a part gives the part back exactly if it has no leading zero. */
  lemma PartsAgree(part: string)
    ensures ServicePart(part) <==> ConnectorPart(part)
  {
    if 1 <= |part| <= 3 && AreDigits(part) {
      var n := NumberOf(part);
      DecimalIsNumeral(n);
      if IsNumeral(part) {
        NumericOrderIsNumberOrder(Decimal(n), part);
        NumericOrderIsTotal();
        assert CompareNumericIdentifier(Decimal(n), part) == 0;
      }
    }
  }

  lemma IPv4Agrees(value: string)
    ensures ServiceIPv4(value) <==> ConnectorIPv4(value)
  {
    forall part ensures ServicePart(part) <==> ConnectorPart(part) {
      PartsAgree(part);
    }
  }

  lemma LabelsAgree(name: string)
    ensures ServiceLabel(name) <==> ConnectorLabel(name)
    ensures ServiceLabel(name) ==> name != "" && IsHostText(name)
  {
  }

  lemma {:induction false} JoinIsHostText(ids: seq<string>)
    requires ids != [] && forall i :: 0 <= i < |ids| ==> ids[i] != "" && IsHostText(ids[i])
    ensures IsHostText(Join(ids)) && Join(ids) != ""
    ensures Join(ids)[0] == ids[0][0] && Join(ids)[|Join(ids)| - 1] == ids[|ids| - 1][|ids[|ids| - 1]| - 1]
  {
    if |ids| > 1 {
      JoinIsHostText(ids[1..]);
    }
  }

  lemma {:induction false} JoinHasNoDoubleDots(ids: seq<string>)
    requires ids != [] && forall i :: 0 <= i < |ids| ==> ids[i] != "" && '.' !in ids[i]
    ensures forall i :: !DoubleDotAt(Join(ids), i)
    ensures Join(ids) != "" && Join(ids)[0] != '.' && Join(ids)[|Join(ids)| - 1] != '.'
  {
    assert ids[0][0] in ids[0] && ids[0][|ids[0]| - 1] in ids[0];
    if |ids| == 1 {
      forall i ensures !DoubleDotAt(ids[0], i) {
        assert 0 <= i < |ids[0]| ==> ids[0][i] in ids[0];
      }
    } else {
      var rest := Join(ids[1..]);
      JoinHasNoDoubleDots(ids[1..]);
      var n := |ids[0]|;
      var all := ids[0] + ("." + rest);
      forall i ensures !DoubleDotAt(all, i) {
        if 0 <= i < n {
          assert all[i] == ids[0][i] && ids[0][i] in ids[0];
        } else if n < i < |all| - 1 {
          assert !DoubleDotAt(rest, i - n - 1);
        }
      }
    }
  }

  /** A text of host labels is host text, without empty labels. */
  lemma LabelsMakeHostText(value: string)
    requires forall i :: 0 <= i < |Split(value)| ==> Split(value)[i] != "" && IsHostText(Split(value)[i])
    ensures value != "" && IsHostText(value) && value[|value| - 1] != '.' && forall i :: !DoubleDotAt(value, i)
  {
    SplitExactly(value, Split(value));
    JoinIsHostText(Split(value));
    JoinHasNoDoubleDots(Split(value));
  }

  lemma HostTextIsNotExcluded(value: string)
    requires IsHostText(value)
    ensures !exists i :: 0 <= i < |value| && Excluded(value[i])
  {
  }

  predicate HasHostLabels(value: string) {
    var labels := Split(value);
    |labels| >= 2 && forall i :: 0 <= i < |labels| ==> ServiceLabel(labels[i])
  }

  /** Both grammars accept the same texts, normalised or not: an address or a name with at least one dot. */
  lemma GrammarsAgree(value: string, norm: Normalizer)
    requires KeepsHostText(norm)
    ensures IsValidHost(value) <==> IsNormalizedAllowedHost(value, norm)
    ensures IsValidHost(value) ==> value != "" && norm(value) == value
  {
    IPv4Agrees(value);
    var labels := Split(value);
    forall i | 0 <= i < |labels| ensures ServiceLabel(labels[i]) <==> ConnectorLabel(labels[i]) {
      LabelsAgree(labels[i]);
    }
    if ServiceIPv4(value) || HasHostLabels(value) {
      forall i | 0 <= i < |labels| ensures labels[i] != "" && IsHostText(labels[i]) {
        LabelsAgree(labels[i]);
      }
      LabelsMakeHostText(value);
      HostTextIsNotExcluded(value);
    }
  }

  // ----- Which texts are hosts -----------------------------------------------------------------------------------

  /** Up to sixty-three small letters, digits and hyphens, with no hyphen at either end. */
  ghost predicate IsLabel(name: string) {
    && 1 <= |name| <= 63 && name[0] != '-' && name[|name| - 1] != '-'
    && forall c :: c in name ==> c in SMALL_LETTERS || c in DIGITS || c == '-'
  }

  ghost predicate AreLabels(value: string, labels: seq<string>) {
    |labels| >= 2 && value == Join(labels) && forall name :: name in labels ==> IsLabel(name)
  }

  lemma LabelCharsExactly(c: char)
    ensures IsLabelChar(c) <==> c in SMALL_LETTERS || c in DIGITS || c == '-'
    ensures IsAlphanumeric(c) <==> c in SMALL_LETTERS || c in DIGITS
  {
  }

  lemma LabelsExactly(name: string)
    ensures ServiceLabel(name) <==> IsLabel(name)
  {
    forall c ensures IsLabelChar(c) <==> c in SMALL_LETTERS || c in DIGITS || c == '-'
      ensures IsAlphanumeric(c) <==> c in SMALL_LETTERS || c in DIGITS
    {
      LabelCharsExactly(c);
    }
    hide IsLabelChar, IsAlphanumeric;
    assert '-' !in SMALL_LETTERS && '-' !in DIGITS;
    if ServiceLabel(name) {
      forall c | c in name ensures c in SMALL_LETTERS || c in DIGITS || c == '-' {
        var i :| 0 <= i < |name| && name[i] == c;
        assert i == 0 || i == |name| - 1 || IsLabelChar(name[i]);
      }
    }
    if IsLabel(name) {
      assert name[0] in name && name[|name| - 1] in name;
      forall i | 0 <= i < |name| ensures IsLabelChar(name[i]) {
        assert name[i] in name;
      }
    }
  }

  /**
   The hosts are the texts of two labels or more, with dots between them, up to 253 characters: the branch for
   addresses and the list of excluded characters decide nothing.
   */
  lemma HostsExactly(value: string)
    ensures IsValidHost(value) <==> |value| <= 253 && exists labels :: AreLabels(value, labels)
  {
    hide ServicePart, IsLabel;
    var labels := Split(value);
    SplitExactly(value, labels);
    forall name ensures ServiceLabel(name) <==> IsLabel(name) {
      LabelsExactly(name);
    }
    if ServiceIPv4(value) {
      AddressesAreNames(value);
    }
    if HasHostLabels(value) {
      assert AreLabels(value, labels);
      NamesAreHostText(value);
    }
    if other :| AreLabels(value, other) {
      forall k | 0 <= k < |other| ensures ServiceLabel(other[k]) && '.' !in other[k] {
        assert other[k] in other;
        LabelsAgree(other[k]);
      }
      SplitExactly(value, other);
    }
  }

  /** Four numbers above 255 are no address, and accepted all the same. */
  lemma OutOfRangeIsAccepted(part: string)
    requires 1 <= |part| <= 3 && AreDigits(part) && NumberOf(part) > 255
    ensures var value := Join([part, part, part, part]); !ServiceIPv4(value) && IsValidHost(value)
  {
    hide NumberOf, ServiceLabel, IsLabel;
    var parts := [part, part, part, part];
    var value := Join(parts);
    JoinOfFour(part);
    DigitsAreLabels(part);
    assert '.' !in part && forall i :: 0 <= i < 4 ==> parts[i] == part;
    SplitExactly(value, parts);
    assert !ServicePart(Split(value)[0]);
    assert AreLabels(value, parts) by {
      LabelsExactly(part);
    }
    HostsExactly(value);
  }

  lemma JoinOfFour(part: string)
    ensures |Join([part, part, part, part])| == 4 * |part| + 3
  {
    var parts := [part, part, part, part];
    assert parts[1..] == [part, part, part] && parts[1..][1..] == [part, part];
    assert |Join(parts[1..][1..])| == 2 * |part| + 1 && |Join(parts[1..])| == 3 * |part| + 2;
  }

  lemma DigitsAreLabels(part: string)
    requires 1 <= |part| <= 3 && AreDigits(part)
    ensures ServiceLabel(part)
  {
  }

  lemma NamesAreHostText(value: string)
    requires HasHostLabels(value)
    ensures !exists i :: 0 <= i < |value| && Excluded(value[i])
  {
    var labels := Split(value);
    forall i | 0 <= i < |labels| ensures labels[i] != "" && IsHostText(labels[i]) {
      LabelsAgree(labels[i]);
    }
    LabelsMakeHostText(value);
    HostTextIsNotExcluded(value);
  }

  /** Every address would do as a name. */
  lemma AddressesAreNames(value: string)
    requires ServiceIPv4(value)
    ensures HasHostLabels(value)
  {
    var parts := Split(value);
    forall i | 0 <= i < |parts| ensures ServiceLabel(parts[i]) {
      assert ServicePart(parts[i]);
    }
  }

  // ----- Lists -----------------------------------------------------------------------------------------------------

  datatype Result = Ok(hosts: seq<string>) | Failed

  predicate Less(a: string, b: string) {
    CompareText(a, b) < 0
  }

  /** The first occurrence of each. */
  function Deduplicated(values: seq<string>): (r: seq<string>)
    ensures forall x :: x in r <==> x in values
  {
    if values == [] then []
    else
      var n := |values| - 1;
      var front := Deduplicated(values[..n]);
      assert values == values[..n] + [values[n]];
      if values[n] in front then front else front + [values[n]]
  }

  function Insert(x: string, sorted: seq<string>): seq<string> {
    if sorted == [] then [x]
    else if Less(sorted[0], x) then [sorted[0]] + Insert(x, sorted[1..])
    else [x] + sorted
  }

  function Sorted(values: seq<string>): seq<string> {
    if values == [] then [] else Insert(values[|values| - 1], Sorted(values[..|values| - 1]))
  }

  /** Trimmed and in lower case, those that are empty left out. */
  function Cleaned(values: seq<string>, norm: Normalizer, keepEmpty: bool): (r: seq<string>)
    ensures forall x :: x in r <==> (exists i :: 0 <= i < |values| && norm(values[i]) == x) && (keepEmpty || x != "")
  {
    if values == [] then []
    else
      var n := |values| - 1;
      var front, last := Cleaned(values[..n], norm, keepEmpty), norm(values[n]);
      assert forall i :: 0 <= i < n ==> values[..n][i] == values[i];
      if keepEmpty || last != "" then front + [last] else front
  }

  predicate AllValid(hosts: seq<string>) {
    forall i :: 0 <= i < |hosts| ==> IsValidHost(hosts[i])
  }

  /** The service's list: blank entries dropped, no host twice, sorted. */
  function ServiceHosts(values: seq<string>, norm: Normalizer): Result {
    if |values| > MAX_HOSTS then Failed
    else
      var normalized := Deduplicated(Cleaned(values, norm, false));
      if AllValid(normalized) then Ok(Sorted(normalized)) else Failed
  }

  predicate AllNormalized(hosts: seq<string>, norm: Normalizer) {
    forall i :: 0 <= i < |hosts| ==> IsNormalizedAllowedHost(hosts[i], norm)
  }

  /** The connector's list: a blank entry is an error. */
  function ConnectorHosts(values: seq<string>, norm: Normalizer): Result {
    if |values| > MAX_HOSTS then Failed
    else
      var normalized := Sorted(Deduplicated(Cleaned(values, norm, true)));
      if AllNormalized(normalized, norm) then Ok(normalized) else Failed
  }

  /** What the connector accepts over the wire. */
  predicate IsNormalizedAllowedHostList(hosts: seq<string>, norm: Normalizer) {
    |hosts| <= MAX_HOSTS && AllNormalized(hosts, norm) && forall i :: 0 < i < |hosts| ==> Less(hosts[i - 1], hosts[i])
  }

  ghost predicate Ascending(hosts: seq<string>) {
    forall i, j :: 0 <= i < j < |hosts| ==> Less(hosts[i], hosts[j])
  }

  lemma {:induction false} NeighboursAscend(hosts: seq<string>)
    requires forall i :: 0 < i < |hosts| ==> Less(hosts[i - 1], hosts[i])
    ensures Ascending(hosts)
  {
    if |hosts| > 1 {
      var n := |hosts| - 1;
      var front := hosts[..n];
      forall i | 0 < i < n ensures Less(front[i - 1], front[i]) {
        assert Less(hosts[i - 1], hosts[i]);
      }
      NeighboursAscend(front);
      TextOrderIsTotal();
      forall i | 0 <= i < n ensures Less(hosts[i], hosts[n]) {
        assert Less(hosts[n - 1], hosts[n]);
        assert i < n - 1 ==> Less(front[i], front[n - 1]);
      }
      forall i, j | 0 <= i < j < |hosts| ensures Less(hosts[i], hosts[j]) {
        assert j < n ==> Less(front[i], front[j]);
      }
    }
  }

  lemma {:induction false} InsertAscends(x: string, sorted: seq<string>)
    requires Ascending(sorted) && x !in sorted
    ensures Ascending(Insert(x, sorted)) && |Insert(x, sorted)| == |sorted| + 1
    ensures forall y :: y in Insert(x, sorted) <==> y == x || y in sorted
  {
    TextOrderIsTotal();
    if sorted != [] {
      var first, rest := sorted[0], sorted[1..];
      assert sorted == [first] + rest;
      if Less(first, x) {
        InsertAscends(x, rest);
        PrependAscends(first, Insert(x, rest), sorted);
      } else {
        PrependAscends(x, sorted, sorted);
      }
    }
  }

  lemma PrependAscends(first: string, rest: seq<string>, sorted: seq<string>)
    requires Ascending(rest) && forall y :: y in rest ==> Less(first, y)
    ensures Ascending([first] + rest)
  {
    var all := [first] + rest;
    forall i, j | 0 <= i < j < |all| ensures Less(all[i], all[j]) {
      assert rest[j - 1] in rest;
      assert i > 0 ==> Less(rest[i - 1], rest[j - 1]);
    }
  }

  lemma {:induction false} SortedAscends(values: seq<string>)
    requires Distinct(values)
    ensures Ascending(Sorted(values)) && |Sorted(values)| == |values|
    ensures forall x :: x in Sorted(values) <==> x in values
    decreases |values|
  {
    if values != [] {
      var n := |values| - 1;
      var front, last := values[..n], values[n];
      assert values == front + [last];
      SortedAscends(front);
      assert last !in front;
      InsertAscends(last, Sorted(front));
    }
  }

  lemma {:induction false} AscendingIsSorted(values: seq<string>)
    requires Ascending(values)
    ensures Sorted(values) == values && Deduplicated(values) == values && Distinct(values)
    decreases |values|
  {
    TextOrderIsTotal();
    if values != [] {
      var n := |values| - 1;
      var front, last := values[..n], values[n];
      AscendingIsSorted(front);
      assert last !in front;
      InsertLast(last, front);
      assert values == front + [last];
    }
  }

  lemma {:induction false} InsertLast(x: string, sorted: seq<string>)
    requires forall y :: y in sorted ==> Less(y, x)
    ensures Insert(x, sorted) == sorted + [x]
  {
    if sorted != [] {
      assert sorted[0] in sorted;
      InsertLast(x, sorted[1..]);
      assert sorted == [sorted[0]] + sorted[1..];
    }
  }

  lemma {:induction false} DeduplicatedIsDistinct(values: seq<string>)
    ensures Distinct(Deduplicated(values)) && |Deduplicated(values)| <= |values|
    decreases |values|
  {
    if values != [] {
      DeduplicatedIsDistinct(values[..|values| - 1]);
    }
  }

  lemma {:induction false} CleanedLength(values: seq<string>, norm: Normalizer, keepEmpty: bool)
    ensures |Cleaned(values, norm, keepEmpty)| <= |values|
    decreases |values|
  {
    if values != [] {
      CleanedLength(values[..|values| - 1], norm, keepEmpty);
    }
  }

  /** Every list that the service makes passes the connector's check. */
  lemma ServiceListsPass(values: seq<string>, norm: Normalizer)
    requires KeepsHostText(norm) && ServiceHosts(values, norm).Ok?
    ensures IsNormalizedAllowedHostList(ServiceHosts(values, norm).hosts, norm)
  {
    var cleaned := Cleaned(values, norm, false);
    var normalized := Deduplicated(cleaned);
    var hosts := Sorted(normalized);
    CleanedLength(values, norm, false);
    DeduplicatedIsDistinct(cleaned);
    SortedAscends(normalized);
    forall i | 0 <= i < |hosts| ensures IsNormalizedAllowedHost(hosts[i], norm) {
      assert hosts[i] in normalized;
      var k :| 0 <= k < |normalized| && normalized[k] == hosts[i];
      GrammarsAgree(hosts[i], norm);
    }
  }

  /** The lists that pass are those that either normaliser leaves alone. */
  lemma PassingIsNormalExactly(hosts: seq<string>, norm: Normalizer)
    requires KeepsHostText(norm)
    ensures IsNormalizedAllowedHostList(hosts, norm) <==> ConnectorHosts(hosts, norm) == Ok(hosts)
    ensures IsNormalizedAllowedHostList(hosts, norm) <==> ServiceHosts(hosts, norm) == Ok(hosts)
  {
    if IsNormalizedAllowedHostList(hosts, norm) {
      forall i | 0 <= i < |hosts| ensures hosts[i] != "" && norm(hosts[i]) == hosts[i] && IsValidHost(hosts[i]) {
        GrammarsAgree(hosts[i], norm);
      }
      CleanedIsSame(hosts, norm, true);
      CleanedIsSame(hosts, norm, false);
      NeighboursAscend(hosts);
      AscendingIsSorted(hosts);
    }
    if ConnectorHosts(hosts, norm) == Ok(hosts) {
      DeduplicatedIsDistinct(Cleaned(hosts, norm, true));
      SortedAscends(Deduplicated(Cleaned(hosts, norm, true)));
    }
    if ServiceHosts(hosts, norm) == Ok(hosts) {
      ServiceListsPass(hosts, norm);
    }
  }

  lemma {:induction false} CleanedIsSame(hosts: seq<string>, norm: Normalizer, keepEmpty: bool)
    requires forall i :: 0 <= i < |hosts| ==> hosts[i] != "" && norm(hosts[i]) == hosts[i]
    ensures Cleaned(hosts, norm, keepEmpty) == hosts
    decreases |hosts|
  {
    if hosts != [] {
      CleanedIsSame(hosts[..|hosts| - 1], norm, keepEmpty);
      assert hosts == hosts[..|hosts| - 1] + [hosts[|hosts| - 1]];
    }
  }

  /** Normalising again changes nothing. */
  lemma NormalizingTwice(values: seq<string>, norm: Normalizer)
    requires KeepsHostText(norm) && ServiceHosts(values, norm).Ok?
    ensures ServiceHosts(ServiceHosts(values, norm).hosts, norm) == ServiceHosts(values, norm)
    ensures ConnectorHosts(ServiceHosts(values, norm).hosts, norm) == ServiceHosts(values, norm)
  {
    ServiceListsPass(values, norm);
    PassingIsNormalExactly(ServiceHosts(values, norm).hosts, norm);
  }

  /** The two normalisers give the same, except that the connector's refuses blank entries. */
  lemma NormalizersAgree(values: seq<string>, norm: Normalizer)
    requires KeepsHostText(norm)
    ensures ConnectorHosts(values, norm)
            == if exists i :: 0 <= i < |values| && norm(values[i]) == "" then Failed else ServiceHosts(values, norm)
  {
    var cleaned := Cleaned(values, norm, true);
    var normalized := Deduplicated(cleaned);
    DeduplicatedIsDistinct(cleaned);
    SortedAscends(normalized);
    if i :| 0 <= i < |values| && norm(values[i]) == "" {
      assert "" in cleaned;
      assert "" in Sorted(normalized);
      var k :| 0 <= k < |Sorted(normalized)| && Sorted(normalized)[k] == "";
      assert !IsNormalizedAllowedHost("", norm);
    } else {
      NothingToDrop(values, norm);
      forall x ensures IsValidHost(x) <==> IsNormalizedAllowedHost(x, norm) {
        GrammarsAgree(x, norm);
      }
      SameValidity(normalized, Sorted(normalized), norm);
    }
  }

  lemma SameValidity(a: seq<string>, b: seq<string>, norm: Normalizer)
    requires (forall x :: x in a <==> x in b) && forall x :: IsValidHost(x) <==> IsNormalizedAllowedHost(x, norm)
    ensures AllValid(a) <==> AllNormalized(b, norm)
  {
    assert AllValid(a) <==> forall x :: x in a ==> IsValidHost(x);
    assert AllNormalized(b, norm) <==> forall x :: x in b ==> IsNormalizedAllowedHost(x, norm);
  }

  lemma {:induction false} NothingToDrop(values: seq<string>, norm: Normalizer)
    requires forall i :: 0 <= i < |values| ==> norm(values[i]) != ""
    ensures Cleaned(values, norm, true) == Cleaned(values, norm, false)
    decreases |values|
  {
    if values != [] {
      NothingToDrop(values[..|values| - 1], norm);
    }
  }

  // ----- Which lists come out ------------------------------------------------------------------------------------

  /** Each entry comes before all later ones in the order of text. */
  ghost predicate Rises(hosts: seq<string>) {
    forall i, j :: 0 <= i < j < |hosts| ==> Precedes(hosts[i], hosts[j])
  }

  ghost predicate IsEntry(values: seq<string>, norm: Normalizer, x: string) {
    x != "" && exists i :: 0 <= i < |values| && norm(values[i]) == x
  }

  lemma AscendingExactly(hosts: seq<string>)
    ensures Ascending(hosts) <==> Rises(hosts)
  {
    forall a, b ensures Less(a, b) <==> Precedes(a, b) {
      CompareTextExactly(a, b);
    }
  }

  /** There is one ascending list of given texts. */
  lemma {:induction false} AscendingIsUnique(a: seq<string>, b: seq<string>)
    requires Ascending(a) && Ascending(b) && forall x :: x in a <==> x in b
    ensures a == b
    decreases |a|
  {
    TextOrderIsTotal();
    assert (a != [] ==> a[0] in b) && (b != [] ==> b[0] in a);
    if a != [] && b != [] {
      var m, n := |a| - 1, |b| - 1;
      assert a[m] in b && b[n] in a;
      assert a[m] == b[n];
      forall x ensures x in a[..m] <==> x in b[..n] {
        InFront(a, x);
        InFront(b, x);
      }
      AscendingIsUnique(a[..m], b[..n]);
    }
  }

  lemma InFront(a: seq<string>, x: string)
    requires a != [] && Ascending(a)
    ensures x in a[..|a| - 1] <==> x in a && x != a[|a| - 1]
  {
    TextOrderIsTotal();
    assert a == a[..|a| - 1] + [a[|a| - 1]];
  }

  /**
   The service takes sixteen entries at most, blank or hosts, and gives back the hosts that are among them, each once
   and in the order of text.
   */
  lemma ServiceHostsExactly(values: seq<string>, norm: Normalizer, hosts: seq<string>)
    ensures ServiceHosts(values, norm) == Ok(hosts) <==>
      && |values| <= 16 && (forall x :: IsEntry(values, norm, x) ==> IsValidHost(x))
      && (forall x :: x in hosts <==> IsEntry(values, norm, x)) && Rises(hosts)
  {
    hide IsValidHost;
    var normalized := Deduplicated(Cleaned(values, norm, false));
    DeduplicatedIsDistinct(Cleaned(values, norm, false));
    SortedAscends(normalized);
    AscendingExactly(hosts);
    assert forall x :: x in normalized <==> IsEntry(values, norm, x);
    assert AllValid(normalized) <==> forall x :: x in normalized ==> IsValidHost(x);
    if Rises(hosts) && forall x :: x in hosts <==> x in normalized {
      AscendingIsUnique(hosts, Sorted(normalized));
    }
  }
}
