/** The order of semantic versions, computed over digit strings. */
module SemanticVersion {
  import opened Common
  import opened Numerals
  import opened Texts

  // The reading of a version text, the comparison loops, and the order that items 10 and 11 of SemVer 2.0.0 ask for.

  // ----- Pre-release identifiers -----------------------------------------------------------------------------

  /** Pre-release identifiers: numbers before words. */
  function CompareIdentifier(left: string, right: string): int {
    if IsNumeric(left) && IsNumeric(right) then CompareNumericIdentifier(left, right)
    else if IsNumeric(left) != IsNumeric(right) then if IsNumeric(left) then -1 else 1
    else CompareText(left, right)
  }

  lemma IdentifierOrderIsTotal()
    ensures TotalOrder(CompareIdentifier)
  {
    TextOrderIsTotal();
    NumericOrderIsTotal();
  }

  // ----- Version texts ---------------------------------------------------------------------------------------

  datatype Version = Version(core: seq<string>, preRelease: Option<seq<string>>, build: Option<seq<string>>)

  predicate IsWordChar(c: char) {
    IsDigit(c) || 'A' <= c <= 'Z' || 'a' <= c <= 'z' || c == '-'
  }

  predicate IsWord(id: string) {
    id != "" && forall i :: 0 <= i < |id| ==> IsWordChar(id[i])
  }

  predicate AreNumerals(ids: seq<string>) {
    forall i :: 0 <= i < |ids| ==> IsNumeral(ids[i])
  }

  predicate AreWords(ids: seq<string>) {
    ids != [] && forall i :: 0 <= i < |ids| ==> IsWord(ids[i])
  }

  predicate IsVersion(v: Version) {
    && |v.core| == 3 && AreNumerals(v.core)
    && (v.preRelease.Some? ==> AreWords(v.preRelease.value))
    && (v.build.Some? ==> AreWords(v.build.value))
  }

  function JoinOptional(ids: Option<seq<string>>): Option<string>
    requires ids.Some? ==> ids.value != []
  {
    if ids.None? then None else Some(Join(ids.value))
  }

  function Render(v: Version): string
    requires IsVersion(v)
  {
    Rejoined(Rejoined(Join(v.core), '-', JoinOptional(v.preRelease)), '+', JoinOptional(v.build))
  }

  function SplitOptional(text: Option<string>): Option<seq<string>> {
    if text.None? then None else Some(Split(text.value))
  }

  /** The version that a text stands for, if it matches the pattern. */
  function Parse(text: string): Option<Version> {
    var (front, buildText) := Cut(text, '+');
    var (coreText, preText) := Cut(front, '-');
    var v := Version(Split(coreText), SplitOptional(preText), SplitOptional(buildText));
    if IsVersion(v) then Some(v) else None
  }

  lemma {:induction false} CharOfJoin(ids: seq<string>, c: char)
    requires ids != [] && c != '.' && forall i :: 0 <= i < |ids| ==> c !in ids[i]
    ensures c !in Join(ids)
  {
    if |ids| > 1 {
      CharOfJoin(ids[1..], c);
    }
  }

  lemma SplitOptionalExactly(text: Option<string>, ids: Option<seq<string>>)
    requires ids.Some? ==> AreWords(ids.value)
    ensures SplitOptional(text) == ids <==> text == JoinOptional(ids)
  {
    if text.Some? && ids.Some? {
      SplitExactly(text.value, ids.value);
    }
  }

  /** A text is read as a version exactly if it is the rendering of that version. */
  lemma ParseExactly(text: string, v: Version)
    requires IsVersion(v)
    ensures Parse(text) == Some(v) <==> text == Render(v)
  {
    var front := Rejoined(Join(v.core), '-', JoinOptional(v.preRelease));
    CharOfJoin(v.core, '-');
    CharOfJoin(v.core, '+');
    if v.preRelease.Some? {
      CharOfJoin(v.preRelease.value, '+');
    }
    assert '+' !in front;
    CutExactly(text, '+', front, JoinOptional(v.build));
    CutExactly(front, '-', Join(v.core), JoinOptional(v.preRelease));
    var (front', buildText) := Cut(text, '+');
    var (coreText, preText) := Cut(front', '-');
    CutExactly(text, '+', front', buildText);
    CutExactly(front', '-', coreText, preText);
    SplitExactly(coreText, v.core);
    SplitOptionalExactly(preText, v.preRelease);
    SplitOptionalExactly(buildText, v.build);
  }

  // ----- Which texts are versions ----------------------------------------------------------------------------

  ghost predicate WriteNumbers(ids: seq<string>) {
    forall id :: id in ids ==>
      id != "" && (forall c :: c in id ==> c in DIGITS) && (|id| > 1 ==> id[0] != '0')
  }

  ghost predicate WriteWords(ids: seq<string>) {
    && ids != []
    && forall id :: id in ids ==>
         id != "" && forall c :: c in id ==> c in DIGITS || c in CAPITAL_LETTERS || c in SMALL_LETTERS || c == '-'
  }

  /** Three numbers, words after a hyphen, and words after a plus: all with dots between them. */
  ghost predicate WritesVersion(text: string, core: seq<string>, preRelease: Option<seq<string>>,
                                build: Option<seq<string>>) {
    && |core| == 3 && WriteNumbers(core)
    && (preRelease.Some? ==> WriteWords(preRelease.value)) && (build.Some? ==> WriteWords(build.value))
    && text == core[0] + "." + core[1] + "." + core[2]
               + (if preRelease.Some? then "-" + Join(preRelease.value) else "")
               + (if build.Some? then "+" + Join(build.value) else "")
  }

  lemma CharsExactly(c: char)
    ensures IsDigit(c) <==> c in DIGITS
    ensures IsWordChar(c) <==> c in DIGITS || c in CAPITAL_LETTERS || c in SMALL_LETTERS || c == '-'
  {
  }

  lemma PartsExactly(ids: seq<string>)
    ensures AreNumerals(ids) <==> WriteNumbers(ids)
    ensures AreWords(ids) <==> WriteWords(ids)
  {
    forall c
      ensures IsDigit(c) <==> c in DIGITS
      ensures IsWordChar(c) <==> c in DIGITS || c in CAPITAL_LETTERS || c in SMALL_LETTERS || c == '-'
    {
      CharsExactly(c);
    }
    hide IsDigit, IsWordChar;
    forall id ensures AreDigits(id) <==> forall c :: c in id ==> c in DIGITS {
    }
    forall i | 0 <= i < |ids| ensures ids[i] in ids {
    }
  }

  lemma RenderExactly(v: Version)
    requires IsVersion(v)
    ensures WritesVersion(Render(v), v.core, v.preRelease, v.build)
  {
    hide IsWord, IsNumeral;
    PartsExactly(v.core);
    if v.preRelease.Some? {
      PartsExactly(v.preRelease.value);
    }
    if v.build.Some? {
      PartsExactly(v.build.value);
    }
    var c := v.core;
    assert c[1..][0] == c[1] && c[1..][1..][0] == c[2];
    assert Join(c[1..]) == c[1] + ("." + c[2]);
    assert Join(c) == c[0] + ("." + (c[1] + ("." + c[2]))) == c[0] + "." + c[1] + "." + c[2];
  }

  /** The versions are the texts of this form, and each is read as the parts that it is made of. */
  lemma VersionTextsExactly(text: string, v: Version)
    ensures Parse(text) == Some(v) <==> WritesVersion(text, v.core, v.preRelease, v.build)
  {
    hide Render, Cut, Split;
    PartsExactly(v.core);
    if v.preRelease.Some? {
      PartsExactly(v.preRelease.value);
    }
    if v.build.Some? {
      PartsExactly(v.build.value);
    }
    if IsVersion(v) {
      ParseExactly(text, v);
      RenderExactly(v);
    }
  }

  // ----- Comparing versions ----------------------------------------------------------------------------------

  /** A version with a pre-release comes before the one without. */
  function ComparePreReleases(left: Option<seq<string>>, right: Option<seq<string>>): int {
    if left.None? || right.None? then
      if left.None? && right.None? then 0 else if left.Some? then -1 else 1
    else Lexicographic(CompareIdentifier, left.value, right.value)
  }

  function Compare(v: Version, w: Version): int {
    var core := Lexicographic(CompareNumericIdentifier, v.core, w.core);
    if core != 0 then core else ComparePreReleases(v.preRelease, w.preRelease)
  }

  lemma LexicographicStep<T>(compare: (T, T) -> int, p: seq<T>, q: seq<T>, i: nat)
    requires i < |p| && i < |q|
    ensures Lexicographic(compare, p[i..], q[i..])
            == if p[i] == q[i] then Lexicographic(compare, p[i + 1..], q[i + 1..]) else compare(p[i], q[i])
  {
    assert p[i..][1..] == p[i + 1..] && q[i..][1..] == q[i + 1..];
  }

  /** The comparison of two texts: None unless both are versions. */
  method CompareSemanticVersions(left: string, right: string) returns (r: Option<int>)
    ensures r == match (Parse(left), Parse(right))
                 case (Some(v), Some(w)) => Some(Compare(v, w))
                 case _ => None
  {
    var leftMatch, rightMatch := Parse(left), Parse(right);
    if leftMatch.None? || rightMatch.None? {
      return None;
    }
    NumericOrderIsTotal();
    var v, w := leftMatch.value, rightMatch.value;
    assert v.core[0..] == v.core && w.core[0..] == w.core;
    for index := 0 to 3
      invariant Lexicographic(CompareNumericIdentifier, v.core, w.core)
                == Lexicographic(CompareNumericIdentifier, v.core[index..], w.core[index..])
    {
      LexicographicStep(CompareNumericIdentifier, v.core, w.core, index);
      var comparison := CompareNumericIdentifier(v.core[index], w.core[index]);
      if comparison != 0 {
        return Some(comparison);
      }
    }
    var p, q := v.preRelease, w.preRelease;
    if p.None? || q.None? {
      return if p.None? && q.None? then Some(0) else if p.Some? then Some(-1) else Some(1);
    }
    var comparison := ComparePreReleaseLists(p.value, q.value);
    r := Some(comparison);
  }

  method ComparePreReleaseLists(p: seq<string>, q: seq<string>) returns (r: int)
    ensures r == Lexicographic(CompareIdentifier, p, q)
  {
    var length := Max(|p|, |q|);
    assert p[0..] == p && q[0..] == q;
    for index := 0 to length
      invariant index <= |p| && index <= |q|
      invariant Lexicographic(CompareIdentifier, p, q) == Lexicographic(CompareIdentifier, p[index..], q[index..])
    {
      if index >= |p| || index >= |q| {
        return if index >= |p| then -1 else 1;
      }
      LexicographicStep(CompareIdentifier, p, q, index);
      var leftIdentifier, rightIdentifier := p[index], q[index];
      if leftIdentifier == rightIdentifier {
        continue;
      }
      var leftNumeric, rightNumeric := IsNumeric(leftIdentifier), IsNumeric(rightIdentifier);
      if leftNumeric && rightNumeric {
        return CompareNumericIdentifier(leftIdentifier, rightIdentifier);
      }
      if leftNumeric != rightNumeric {
        return if leftNumeric then -1 else 1;
      }
      return CompareText(leftIdentifier, rightIdentifier);
    }
    r := 0;
  }

  /** All versions are in one order, and only build metadata makes no difference. */
  lemma PrecedenceIsTotalPreorder(u: Version, v: Version, w: Version)
    ensures Compare(v, w) in {-1, 0, 1}
    ensures Compare(v, w) == 0 <==> v.core == w.core && v.preRelease == w.preRelease
    ensures Compare(v, w) == -Compare(w, v)
    ensures Compare(u, v) <= 0 && Compare(v, w) <= 0 ==> Compare(u, w) <= 0
  {
    NumericOrderIsTotal();
    IdentifierOrderIsTotal();
    LexicographicIsTotal(CompareNumericIdentifier);
    LexicographicIsTotal(CompareIdentifier);
    var core := (p: seq<string>, q: seq<string>) => Lexicographic(CompareNumericIdentifier, p, q);
    var pre := (p: seq<string>, q: seq<string>) => Lexicographic(CompareIdentifier, p, q);
    PreReleaseOrder(pre, u.preRelease, v.preRelease, w.preRelease);
    PreReleaseOrder(pre, w.preRelease, u.preRelease, v.preRelease);
    assert core(u.core, v.core) == Lexicographic(CompareNumericIdentifier, u.core, v.core);
    assert core(v.core, w.core) == Lexicographic(CompareNumericIdentifier, v.core, w.core);
    assert core(w.core, v.core) == Lexicographic(CompareNumericIdentifier, w.core, v.core);
    assert core(u.core, w.core) == Lexicographic(CompareNumericIdentifier, u.core, w.core);
  }

  lemma PreReleaseOrder(pre: (seq<string>, seq<string>) -> int, u: Option<seq<string>>, v: Option<seq<string>>,
                        w: Option<seq<string>>)
    requires TotalOrder(pre) && forall p, q :: pre(p, q) == Lexicographic(CompareIdentifier, p, q)
    ensures ComparePreReleases(v, w) in {-1, 0, 1}
    ensures ComparePreReleases(v, w) == 0 <==> v == w
    ensures ComparePreReleases(v, w) == -ComparePreReleases(w, v)
    ensures ComparePreReleases(u, v) < 0 && ComparePreReleases(v, w) < 0 ==> ComparePreReleases(u, w) < 0
  {
    if u.Some? && v.Some? && w.Some? {
      assert pre(u.value, v.value) == Lexicographic(CompareIdentifier, u.value, v.value);
      assert pre(v.value, w.value) == Lexicographic(CompareIdentifier, v.value, w.value);
      assert pre(u.value, w.value) == Lexicographic(CompareIdentifier, u.value, w.value);
    }
    if v.Some? && w.Some? {
      assert pre(v.value, w.value) == Lexicographic(CompareIdentifier, v.value, w.value);
      assert pre(w.value, v.value) == Lexicographic(CompareIdentifier, w.value, v.value);
    }
  }

  // ----- SemVer 2.0.0 ----------------------------------------------------------------------------------------

  /** What SemVer calls a version: numeric identifiers without leading zeros (item 9). */
  predicate IsSemVer(v: Version) {
    IsVersion(v) && (v.preRelease.Some? ==> forall id :: id in v.preRelease.value && IsNumeric(id) ==> IsNumeral(id))
  }

  /** The first place where two sequences differ. */
  ghost predicate DifferFirstAt<T>(p: seq<T>, q: seq<T>, k: nat) {
    k <= |p| && k <= |q| && p[..k] == q[..k] && (k < |p| && k < |q| ==> p[k] != q[k])
  }

  /** Words in ASCII order (item 11.4.2). */
  ghost predicate WordLower(a: string, b: string) {
    exists k: nat :: DifferFirstAt(a, b, k) && k < |b| && (k < |a| ==> a[k] < b[k])
  }

  /** Numbers as numbers, words in ASCII order, numbers below words (items 11.4.1 to 11.4.3). */
  ghost predicate IdentifierLower(a: string, b: string) {
    if IsNumeric(a) && IsNumeric(b) then NumberOf(a) < NumberOf(b)
    else IsNumeric(a) || (!IsNumeric(b) && WordLower(a, b))
  }

  /** The first different field decides, and more fields win over fewer (items 11.4 and 11.4.4). */
  ghost predicate PreReleaseLower(p: seq<string>, q: seq<string>) {
    exists k: nat :: DifferFirstAt(p, q, k) && k < |q| && (k < |p| ==> IdentifierLower(p[k], q[k]))
  }

  ghost predicate CoreLower(v: seq<string>, w: seq<string>)
    requires AreNumerals(v) && AreNumerals(w) && |v| == |w|
  {
    exists k :: 0 <= k < |v| && v[..k] == w[..k] && NumberOf(v[k]) < NumberOf(w[k])
  }

  /** Major, minor and patch as numbers, left to right; then a pre-release is below none (items 11.2 and 11.3). */
  ghost predicate Lower(v: Version, w: Version)
    requires IsSemVer(v) && IsSemVer(w)
  {
    || CoreLower(v.core, w.core)
    || (v.core == w.core && v.preRelease.Some?
        && (w.preRelease.None? || PreReleaseLower(v.preRelease.value, w.preRelease.value)))
  }

  lemma SharedHead<T>(p: seq<T>, q: seq<T>, k: nat)
    requires DifferFirstAt(p, q, k)
    ensures k > 0 ==> p != [] && q != [] && p[0] == q[0]
  {
    if k > 0 {
      assert p[..k][0] == p[0] && q[..k][0] == q[0];
    }
  }

  /** The lexicographic comparison in terms of the first difference. */
  lemma {:induction false} LexicographicMeans<T(!new)>(compare: (T, T) -> int, p: seq<T>, q: seq<T>)
    requires TotalOrder(compare)
    ensures Lexicographic(compare, p, q) < 0 <==>
      exists k: nat :: DifferFirstAt(p, q, k) && k < |q| && (k < |p| ==> compare(p[k], q[k]) < 0)
  {
    var lower := Lexicographic(compare, p, q) < 0;
    if p == [] || q == [] || p[0] != q[0] {
      assert DifferFirstAt(p, q, 0);
      forall k: nat | DifferFirstAt(p, q, k) ensures k == 0 {
        SharedHead(p, q, k);
      }
    } else {
      LexicographicMeans(compare, p[1..], q[1..]);
      forall k: nat ensures DifferFirstAt(p, q, k + 1) <==> DifferFirstAt(p[1..], q[1..], k) {
        if k + 1 <= |p| && k + 1 <= |q| {
          assert p[..k + 1] == [p[0]] + p[1..][..k] && q[..k + 1] == [q[0]] + q[1..][..k];
          assert p[..k + 1][1..] == p[1..][..k] && q[..k + 1][1..] == q[1..][..k];
        }
      }
      assert !DifferFirstAt(p, q, 0);
      if lower {
        var k: nat :| DifferFirstAt(p[1..], q[1..], k) && k < |q[1..]|
            && (k < |p[1..]| ==> compare(p[1..][k], q[1..][k]) < 0);
        assert DifferFirstAt(p, q, k + 1);
      }
      if k: nat :| DifferFirstAt(p, q, k) && k < |q| && (k < |p| ==> compare(p[k], q[k]) < 0) {
        var j: nat := k - 1;
        assert DifferFirstAt(p, q, j + 1);
        assert DifferFirstAt(p[1..], q[1..], j);
      }
    }
  }

  lemma WordsCompare(a: string, b: string)
    ensures CompareText(a, b) < 0 <==> WordLower(a, b)
  {
    LexicographicMeans(CompareChars, a, b);
  }

  lemma IdentifiersCompare(a: string, b: string)
    requires IsNumeric(a) ==> IsNumeral(a)
    requires IsNumeric(b) ==> IsNumeral(b)
    ensures CompareIdentifier(a, b) < 0 <==> IdentifierLower(a, b)
  {
    if IsNumeric(a) && IsNumeric(b) {
      NumericOrderIsNumberOrder(a, b);
    } else if !IsNumeric(a) && !IsNumeric(b) {
      WordsCompare(a, b);
    }
  }

  lemma PreReleasesCompare(p: seq<string>, q: seq<string>)
    requires forall id :: id in p || id in q ==> IsNumeric(id) ==> IsNumeral(id)
    ensures Lexicographic(CompareIdentifier, p, q) < 0 <==> PreReleaseLower(p, q)
  {
    IdentifierOrderIsTotal();
    LexicographicMeans(CompareIdentifier, p, q);
    forall k: nat | k < |p| && k < |q| ensures CompareIdentifier(p[k], q[k]) < 0 <==> IdentifierLower(p[k], q[k]) {
      assert p[k] in p && q[k] in q;
      IdentifiersCompare(p[k], q[k]);
    }
  }

  lemma CoresCompare(v: seq<string>, w: seq<string>)
    requires AreNumerals(v) && AreNumerals(w) && |v| == |w|
    ensures Lexicographic(CompareNumericIdentifier, v, w) < 0 <==> CoreLower(v, w)
  {
    NumericOrderIsTotal();
    LexicographicMeans(CompareNumericIdentifier, v, w);
    forall k | 0 <= k < |v|
      ensures CompareNumericIdentifier(v[k], w[k]) == CompareIntegers(NumberOf(v[k]), NumberOf(w[k]))
      ensures NumberOf(v[k]) < NumberOf(w[k]) ==> v[k] != w[k]
    {
      NumericOrderIsNumberOrder(v[k], w[k]);
    }
    if k :| 0 <= k < |v| && v[..k] == w[..k] && NumberOf(v[k]) < NumberOf(w[k]) {
      assert DifferFirstAt(v, w, k);
    }
  }

  /** On versions that SemVer allows, the comparison is its order of precedence. */
  lemma PrecedenceIsSemVer(v: Version, w: Version)
    requires IsSemVer(v) && IsSemVer(w)
    ensures Compare(v, w) < 0 <==> Lower(v, w)
    ensures Compare(v, w) > 0 <==> Lower(w, v)
  {
    NumericOrderIsTotal();
    IdentifierOrderIsTotal();
    LexicographicSigns(CompareNumericIdentifier, v.core, w.core);
    PrecedenceIsTotalPreorder(v, v, w);
    CoresCompare(v.core, w.core);
    CoresCompare(w.core, v.core);
    if v.preRelease.Some? && w.preRelease.Some? {
      PreReleasesCompare(v.preRelease.value, w.preRelease.value);
      PreReleasesCompare(w.preRelease.value, v.preRelease.value);
      LexicographicSigns(CompareIdentifier, v.preRelease.value, w.preRelease.value);
    }
  }
}
