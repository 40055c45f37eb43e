/**
 JPEG files as marker segments: how segments are written as bytes, how the entropy-coded data after a
 scan header ends at the first real marker (sections B.1.1.2 and B.1.1.5 of ITU-T T.81), and the segment
 that starts at a given place.
 */
module JpegSegments {
  import opened Common
  import opened Images
  import opened Layout

  const MAX_DATA := 0xfffd

  const FILL: byte := 0xff
  const TEM: byte := 0x01
  const SOI: byte := 0xd8
  const EOI: byte := 0xd9
  const SOS: byte := 0xda

  /** The second byte of a stuffed 0xff, or of a restart marker: both belong to entropy-coded data. */
  predicate Stuffed(code: byte) {
    code == 0x00 || 0xd0 <= code <= 0xd7
  }

  // ----- Markers -------------------------------------------------------------------------------------------

  /** The end of the run of fill bytes that starts at i. */
  function RunEnd(b: seq<byte>, i: nat): (j: nat)
    requires i <= |b|
    ensures i <= j <= |b|
    decreases |b| - i
  {
    if i < |b| && b[i] == FILL then RunEnd(b, i + 1) else i
  }

  lemma RunIsFill(b: seq<byte>, i: nat)
    requires i <= |b|
    ensures forall k :: i <= k < RunEnd(b, i) ==> b[k] == FILL
    ensures RunEnd(b, i) < |b| ==> b[RunEnd(b, i)] != FILL
    decreases |b| - i
  {
    if i < |b| && b[i] == FILL {
      RunIsFill(b, i + 1);
    }
  }

  /** One or more fill bytes and a code that does not belong to entropy-coded data. */
  predicate RealMarker(b: seq<byte>, i: nat) {
    i < |b| && b[i] == FILL && RunEnd(b, i) < |b| && !Stuffed(b[RunEnd(b, i)])
  }

  /** No code of a marker: a fill byte, a stuffed zero, or one of the eight restart markers. */
  const NO_MARKER_CODES: set<byte> := {0xff, 0x00, 0xd0, 0xd1, 0xd2, 0xd3, 0xd4, 0xd5, 0xd6, 0xd7}

  lemma RealMarkerExactly(b: seq<byte>, i: nat)
    ensures RealMarker(b, i) <==>
      exists j :: i < j < |b| && (forall k :: i <= k < j ==> b[k] == 0xff) && b[j] !in NO_MARKER_CODES
  {
    if i < |b| {
      RunIsFill(b, i);
      var e := RunEnd(b, i);
      forall j | i < j < |b| && (forall k :: i <= k < j ==> b[k] == 0xff) && b[j] !in NO_MARKER_CODES ensures j == e {
      }
      StuffedExactly();
    }
  }

  lemma StuffedExactly()
    ensures forall code: byte :: code in NO_MARKER_CODES <==> Stuffed(code) || code == FILL
  {
  }

  /** The first real marker at or after i. */
  function NextMarker(b: seq<byte>, i: nat): (r: Option<nat>)
    requires i <= |b|
    ensures r.Some? ==> i <= r.value < |b|
    decreases |b| - i
  {
    if i == |b| then None else if RealMarker(b, i) then Some(i) else NextMarker(b, i + 1)
  }

  lemma {:induction false} NextMarkerIsFirst(b: seq<byte>, i: nat)
    requires i <= |b|
    ensures NextMarker(b, i).Some? ==> RealMarker(b, NextMarker(b, i).value)
                                       && forall k :: i <= k < NextMarker(b, i).value ==> !RealMarker(b, k)
    ensures NextMarker(b, i).None? ==> forall k :: i <= k ==> !RealMarker(b, k)
    decreases |b| - i
  {
    if i < |b| && !RealMarker(b, i) {
      NextMarkerIsFirst(b, i + 1);
    }
  }

  lemma SameRun(b: seq<byte>, i: nat, k: nat)
    requires i <= |b| && i <= k <= RunEnd(b, i)
    ensures RunEnd(b, k) == RunEnd(b, i)
    decreases k - i
  {
    if i < k {
      SameRun(b, i + 1, k);
    }
  }

  /** Looks for the end of the entropy-coded data: every read is inside the bytes, and the search ends. */
  method FindJpegMarkerAfterScan(bytes: seq<byte>, start: nat) returns (r: Option<nat>)
    requires start <= |bytes|
    ensures r.Some? ==> start <= r.value && RealMarker(bytes, r.value)
                        && forall k :: start <= k < r.value ==> !RealMarker(bytes, k)
    ensures r.None? ==> forall k :: start <= k ==> !RealMarker(bytes, k)
  {
    var offset := start;
    while offset < |bytes|
      invariant start <= offset <= |bytes|
      invariant forall k :: start <= k < offset ==> !RealMarker(bytes, k)
    {
      if bytes[offset] != FILL {
        offset := offset + 1;
        continue;
      }
      var markerOffset := offset;
      while offset < |bytes| && bytes[offset] == FILL
        invariant markerOffset <= offset <= |bytes|
        invariant forall k :: markerOffset <= k < offset ==> bytes[k] == FILL
        invariant RunEnd(bytes, offset) == RunEnd(bytes, markerOffset)
      {
        offset := offset + 1;
      }
      forall k | markerOffset <= k <= offset ensures RunEnd(bytes, k) == offset {
        SameRun(bytes, markerOffset, k);
      }
      if offset >= |bytes| {
        return None;
      }
      if Stuffed(bytes[offset]) {
        offset := offset + 1;
        continue;
      }
      return Some(markerOffset);
    }
    r := None;
  }

  /** Entropy-coded data: each 0xff is followed, within the data, by another one or by a stuffed code. */
  ghost predicate CleanEntropy(e: seq<byte>) {
    forall k :: 0 <= k < |e| && e[k] == FILL ==> k + 1 < |e| && (e[k + 1] == FILL || Stuffed(e[k + 1]))
  }

  lemma {:induction false} CleanRunStays(b: seq<byte>, i: nat, m: nat, k: nat)
    requires i <= k < m <= |b| && CleanEntropy(b[i..m]) && b[k] == FILL
    ensures RunEnd(b, k) < m && Stuffed(b[RunEnd(b, k)])
    decreases m - k
  {
    assert b[i..m][k - i] == FILL;
    assert b[i..m][k + 1 - i] == b[k + 1];
    if b[k + 1] == FILL {
      CleanRunStays(b, i, m, k + 1);
    }
  }

  /** The data up to a real marker holds no other real marker exactly if it is clean. */
  lemma CleanUpToMarker(b: seq<byte>, i: nat, m: nat)
    requires i <= m < |b| && RealMarker(b, m)
    ensures CleanEntropy(b[i..m]) <==> NextMarker(b, i) == Some(m)
  {
    NextMarkerIsFirst(b, i);
    if CleanEntropy(b[i..m]) {
      forall k | i <= k < m ensures !RealMarker(b, k) {
        if b[k] == FILL {
          CleanRunStays(b, i, m, k);
        }
      }
    }
    if NextMarker(b, i) == Some(m) {
      var e := b[i..m];
      forall k | 0 <= k < |e| && e[k] == FILL
        ensures k + 1 < |e| && (e[k + 1] == FILL || Stuffed(e[k + 1]))
      {
        assert !RealMarker(b, i + k);
        assert RunEnd(b, i + k) == RunEnd(b, i + k + 1);
      }
    }
  }

  // ----- Segments ------------------------------------------------------------------------------------------

  /** A marker with its extra fill bytes, its data, and the entropy-coded data after a scan header. */
  datatype RawSegment = Segment(fill: nat, code: byte, data: seq<byte>, entropy: seq<byte>)

  type Segment = s: RawSegment | |s.data| <= MAX_DATA witness Segment(0, TEM, [], [])

  /** Markers without a length and data. */
  predicate Lone(code: byte) {
    code == TEM || code == EOI
  }

  predicate Forbidden(code: byte) {
    Stuffed(code) || code == SOI
  }

  ghost predicate Shape(s: Segment) {
    && !Forbidden(s.code) && s.code != FILL
    && (Lone(s.code) ==> s.data == [])
    && (s.code != SOS ==> s.entropy == [])
    && CleanEntropy(s.entropy)
  }

  function BE16(high: byte, low: byte): nat {
    high * 0x100 + low
  }

  function Bytes16(n: nat): (b: seq<byte>)
    requires n <= 0xffff
    ensures |b| == 2 && BE16(b[0], b[1]) == n
  {
    [n / 0x100, n % 0x100]
  }

  function Fill(n: nat): (b: seq<byte>)
    ensures |b| == n && forall k :: 0 <= k < n ==> b[k] == FILL
  {
    if n == 0 then [] else [FILL] + Fill(n - 1)
  }

  function Body(s: Segment): (b: seq<byte>)
    ensures |b| == if Lone(s.code) then 0 else 2 + |s.data| + |s.entropy|
  {
    if Lone(s.code) then [] else Bytes16(|s.data| + 2) + s.data + s.entropy
  }

  function Render(s: Segment): (b: seq<byte>)
    ensures |b| == s.fill + 2 + |Body(s)|
    ensures b[s.fill + 1] == s.code && forall k :: 0 <= k <= s.fill ==> b[k] == FILL
    ensures b[s.fill + 2..] == Body(s)
  {
    Fill(s.fill + 1) + [s.code] + Body(s)
  }

  /**
   Segments byte by byte: fill bytes and the code, and for all codes but two the length, the data and, after a scan
   header, the entropy-coded data.  No segment has the code of a start of image, a stuffed zero or a restart.
   */
  lemma SegmentsExactly(s: Segment)
    ensures var n := |s.data| + 2;
      Render(s) == seq(s.fill + 1, _ => 0xff) + [s.code]
        + (if s.code in {0x01, 0xd9} then [] else [n / 256, n % 256] + s.data + s.entropy)
    ensures Shape(s) ==> s.code != 0xd8 && s.code !in NO_MARKER_CODES
    ensures Shape(s) ==> (s.code in {0x01, 0xd9} ==> s.data == []) && (s.code != 0xda ==> s.entropy == [])
  {
    assert Fill(s.fill + 1) == seq(s.fill + 1, _ => 0xff);
  }

  /** What follows a marker code at `start`. */
  function SegmentAfter(b: seq<byte>, fill: nat, code: byte, start: nat): Option<Segment>
    requires start <= |b|
  {
    if Forbidden(code) then None
    else if Lone(code) then Some(Segment(fill, code, [], []))
    else if |b| - start < 2 then None
    else
      var length := BE16(b[start], b[start + 1]);
      if length < 2 || length > |b| - start then None
      else
        var data, end := b[start + 2..start + length], start + length;
        if code != SOS then Some(Segment(fill, code, data, []))
        else
          match NextMarker(b, end)
          case None => None
          case Some(m) => Some(Segment(fill, code, data, b[end..m]))
  }

  /** The segment that starts at `offset`. */
  function SegmentAt(b: seq<byte>, offset: nat): Option<Segment>
    requires offset <= |b|
  {
    var j := RunEnd(b, offset);
    if j == offset || j == |b| then None else SegmentAfter(b, j - offset - 1, b[j], j + 1)
  }

  lemma BE16Injective(high: byte, low: byte, high': byte, low': byte)
    requires BE16(high, low) == BE16(high', low')
    ensures high == high' && low == low'
  {
  }

  lemma HoldsLength(b: seq<byte>, start: nat, length: nat)
    requires start + 2 <= |b| && length <= 0xffff
    ensures Holds(b, start, Bytes16(length)) <==> BE16(b[start], b[start + 1]) == length
  {
    var two, written := b[start..start + 2], Bytes16(length);
    assert two == [b[start], b[start + 1]];
    if BE16(b[start], b[start + 1]) == BE16(written[0], written[1]) {
      BE16Injective(b[start], b[start + 1], written[0], written[1]);
    }
  }

  lemma BodyAfter(b: seq<byte>, fill: nat, code: byte, start: nat, s: Segment)
    requires start <= |b| && code != FILL && SegmentAfter(b, fill, code, start) == Some(s)
    ensures Shape(s) && s.fill == fill && s.code == code && Holds(b, start, Body(s))
  {
    if !Lone(code) {
      var length := BE16(b[start], b[start + 1]);
      EntropyAfter(b, fill, code, start, s);
      BodyOfParts(b, start, length, s.entropy);
      assert Body(s) == Bytes16(length) + b[start + 2..start + length] + s.entropy;
    }
  }

  lemma EntropyAfter(b: seq<byte>, fill: nat, code: byte, start: nat, s: Segment)
    requires start <= |b| && !Lone(code) && SegmentAfter(b, fill, code, start) == Some(s)
    ensures start + 2 <= |b| && var length := BE16(b[start], b[start + 1]);
            && 2 <= length <= |b| - start && s.data == b[start + 2..start + length]
            && Holds(b, start + length, s.entropy) && CleanEntropy(s.entropy)
  {
    if code == SOS {
      EntropyIsClean(b, start + BE16(b[start], b[start + 1]));
    }
  }

  lemma BodyOfParts(b: seq<byte>, start: nat, length: nat, entropy: seq<byte>)
    requires 2 <= length <= |b| - start && length == BE16(b[start], b[start + 1]) && Holds(b, start + length, entropy)
    ensures Holds(b, start, Bytes16(length) + b[start + 2..start + length] + entropy)
  {
    HoldsLength(b, start, length);
    HoldsThree(b, start, Bytes16(length), b[start + 2..start + length], entropy);
  }

  lemma EntropyIsClean(b: seq<byte>, end: nat)
    requires end <= |b| && NextMarker(b, end).Some?
    ensures CleanEntropy(b[end..NextMarker(b, end).value])
  {
    NextMarkerIsFirst(b, end);
    CleanUpToMarker(b, end, NextMarker(b, end).value);
  }

  /** A segment is there if its marker is there and its body comes next. */
  lemma HoldsSegment(b: seq<byte>, offset: nat, s: Segment)
    requires s.code != FILL
    ensures Holds(b, offset, Render(s))
            <==> offset + s.fill + 1 < |b| && RunEnd(b, offset) == offset + s.fill + 1
                 && b[offset + s.fill + 1] == s.code
                 && Holds(b, offset + s.fill + 2, Body(s))
  {
    var marker := Fill(s.fill + 1) + [s.code];
    HoldsParts(b, offset, marker, Body(s));
    assert marker + Body(s) == Render(s);
    HoldsMarker(b, offset, s.fill + 1, s.code);
  }

  lemma HoldsMarker(b: seq<byte>, offset: nat, run: nat, code: byte)
    requires code != FILL
    ensures Holds(b, offset, Fill(run) + [code])
            <==> offset + run < |b| && RunEnd(b, offset) == offset + run && b[offset + run] == code
  {
    var marker := Fill(run) + [code];
    if offset <= |b| {
      RunIsFill(b, offset);
    }
    if Holds(b, offset, marker) {
      forall k | offset <= k <= offset + run ensures b[k] == marker[k - offset] {
        assert b[offset..offset + |marker|][k - offset] == b[k];
      }
      assert b[offset + run] == code;
    }
  }

  lemma SegmentAtRenders(b: seq<byte>, offset: nat, s: Segment)
    requires offset <= |b| && SegmentAt(b, offset) == Some(s)
    ensures Shape(s) && Holds(b, offset, Render(s))
  {
    var j := RunEnd(b, offset);
    RunIsFill(b, offset);
    BodyAfter(b, j - offset - 1, b[j], j + 1, s);
    HoldsSegment(b, offset, s);
  }

  lemma AfterBody(b: seq<byte>, start: nat, s: Segment, next: nat)
    requires start <= |b| && Shape(s) && Holds(b, start, Body(s)) && next == start + |Body(s)|
    requires s.code == SOS ==> RealMarker(b, next)
    ensures SegmentAfter(b, s.fill, s.code, start) == Some(s)
  {
    if !Lone(s.code) {
      var length := |s.data| + 2;
      HoldsThree(b, start, Bytes16(length), s.data, s.entropy);
      HoldsLength(b, start, length);
      var end := start + length;
      assert b[start + 2..end] == s.data;
      if s.code == SOS {
        assert b[end..next] == s.entropy;
        CleanUpToMarker(b, end, next);
      }
    }
  }

  /** Rendering a segment and reading it back; a scan needs a marker behind it to end. */
  lemma RenderedSegmentAt(b: seq<byte>, offset: nat, s: Segment)
    requires Shape(s) && Holds(b, offset, Render(s))
    requires s.code == SOS ==> RealMarker(b, offset + |Render(s)|)
    ensures SegmentAt(b, offset) == Some(s)
  {
    SegmentParts(b, offset, s);
    AfterBody(b, offset + s.fill + 2, s, offset + |Render(s)|);
    ReadAfterRun(b, offset, offset + s.fill + 1);
  }

  lemma SegmentParts(b: seq<byte>, offset: nat, s: Segment)
    requires s.code != FILL && Holds(b, offset, Render(s))
    ensures offset + s.fill + 1 < |b| && RunEnd(b, offset) == offset + s.fill + 1 && b[offset + s.fill + 1] == s.code
    ensures Holds(b, offset + s.fill + 2, Body(s)) && |Render(s)| == s.fill + 2 + |Body(s)|
  {
    HoldsSegment(b, offset, s);
  }

  lemma ReadAfterRun(b: seq<byte>, offset: nat, j: nat)
    requires offset < j < |b| && RunEnd(b, offset) == j
    ensures SegmentAt(b, offset) == SegmentAfter(b, j - offset - 1, b[j], j + 1)
  {
  }

  lemma RenderedStartsReal(b: seq<byte>, offset: nat, s: Segment)
    requires Shape(s) && Holds(b, offset, Render(s))
    ensures RealMarker(b, offset)
  {
    HoldsSegment(b, offset, s);
  }
}
