/**
 The JPEG scanner: which segment lists are accepted, the loop over the segments, and the proof that the
 loop accepts exactly the bytes of those lists.
 */
module JpegStructure {
  import opened Common
  import opened Images
  import opened ItemStream
  import opened JpegSegments
  import opened Layout

  const MAX_STRUCTURE_PARTS := 100_000

  const START_OF_IMAGE: seq<byte> := [FILL, SOI]

  const START_OF_FRAME_MARKERS: set<byte> :=
    {0xc0, 0xc1, 0xc2, 0xc3, 0xc5, 0xc6, 0xc7, 0xc9, 0xca, 0xcb, 0xcd, 0xce, 0xcf}

  // ----- Which lists are accepted ----------------------------------------------------------------------------

  predicate IsFrame(s: Segment) {
    s.code in START_OF_FRAME_MARKERS
  }

  predicate IsScan(s: Segment) {
    s.code == SOS
  }

  function FrameSize(s: Segment): Dimensions
    requires |s.data| >= 5
  {
    Dimensions(BE16(s.data[3], s.data[4]), BE16(s.data[1], s.data[2]))
  }

  /** Sample precision, size and one to four components of three bytes each. */
  predicate FrameFine(s: Segment) {
    && |s.data| >= 9
    && s.data[0] in {8, 12}
    && 1 <= s.data[5] <= 4
    && |s.data| == 6 + s.data[5] * 3
    && ValidDimensions(FrameSize(s))
  }

  /** One to four components of two bytes each. */
  predicate ScanFine(s: Segment) {
    && |s.data| >= 6
    && 1 <= s.data[0] <= 4
    && |s.data| == 4 + s.data[0] * 2
  }

  /**
   A frame header as it is laid out: precision, lines, columns, and three bytes for each component (section
   B.2.2).
   */
  ghost predicate WritesFrame(data: seq<byte>, precision: byte, lines: nat, columns: nat, components: seq<byte>) {
    && lines < 0x10000 && columns < 0x10000 && |components| in {3, 6, 9, 12}
    && data == [precision, lines / 256, lines % 256, columns / 256, columns % 256, |components| / 3] + components
  }

  ghost predicate FrameWith(data: seq<byte>, lines: nat, columns: nat) {
    exists precision, components :: precision in {8, 12} && WritesFrame(data, precision, lines, columns, components)
  }

  /** A frame header is fine if it is one of an image within the limits, and that image has its size. */
  lemma FramesExactly(s: Segment, lines: nat, columns: nat)
    ensures FrameFine(s) && FrameSize(s) == Dimensions(columns, lines) <==>
      && FrameWith(s.data, lines, columns)
      && 1 <= lines <= 16_384 && 1 <= columns <= 16_384 && lines * columns <= 16_777_216
  {
    hide BE16, WritesFrame, ValidDimensions;
    var d := s.data;
    if |d| >= 9 {
      SizesInLimits(FrameSize(s));
    }
    if FrameFine(s) && FrameSize(s) == Dimensions(columns, lines) {
      FrameIsWritten(d);
    }
    if precision, components :| precision in {8, 12} && WritesFrame(d, precision, lines, columns, components) {
      WrittenFrame(d, precision, lines, columns, components);
    }
  }

  lemma SizesInLimits(d: Dimensions)
    ensures ValidDimensions(d) <==>
      1 <= d.width <= 16_384 && 1 <= d.height <= 16_384 && d.width * d.height <= 16_777_216
  {
  }

  lemma BE16Exactly(high: byte, low: byte)
    ensures var n := BE16(high, low); n < 0x10000 && n / 256 == high && n % 256 == low
  {
  }

  lemma FrameIsWritten(d: seq<byte>)
    requires |d| >= 9 && 1 <= d[5] <= 4 && |d| == 6 + d[5] * 3
    ensures WritesFrame(d, d[0], BE16(d[1], d[2]), BE16(d[3], d[4]), d[6..])
  {
    hide BE16;
    BE16Exactly(d[1], d[2]);
    BE16Exactly(d[3], d[4]);
    assert d == [d[0], d[1], d[2], d[3], d[4], d[5]] + d[6..];
  }

  lemma WrittenFrame(d: seq<byte>, precision: byte, lines: nat, columns: nat, components: seq<byte>)
    requires WritesFrame(d, precision, lines, columns, components)
    ensures |d| >= 9 && d[0] == precision && BE16(d[1], d[2]) == lines && BE16(d[3], d[4]) == columns
    ensures 1 <= d[5] <= 4 && |d| == 6 + d[5] * 3
  {
    assert d[1] == lines / 256 && d[2] == lines % 256 && d[3] == columns / 256 && d[4] == columns % 256;
  }

  ghost predicate WritesScan(data: seq<byte>, components: seq<byte>, selection: seq<byte>) {
    |components| in {2, 4, 6, 8} && |selection| == 3 && data == [|components| / 2] + components + selection
  }

  /** A scan header is fine if it is laid out with two bytes for each of one to four components (section B.2.3). */
  lemma ScansExactly(s: Segment)
    ensures ScanFine(s) <==> exists components, selection :: WritesScan(s.data, components, selection)
  {
    hide WritesScan;
    if ScanFine(s) {
      ScanIsWritten(s.data);
    }
    if components, selection :| WritesScan(s.data, components, selection) {
      WrittenScan(s.data, components, selection);
    }
  }

  lemma ScanIsWritten(d: seq<byte>)
    requires |d| >= 6 && 1 <= d[0] <= 4 && |d| == 4 + d[0] * 2
    ensures WritesScan(d, d[1..|d| - 3], d[|d| - 3..])
  {
    assert |d[1..|d| - 3]| == 2 * d[0];
    assert d == [d[0]] + d[1..|d| - 3] + d[|d| - 3..];
  }

  lemma WrittenScan(d: seq<byte>, components: seq<byte>, selection: seq<byte>)
    requires WritesScan(d, components, selection)
    ensures |d| >= 6 && 1 <= d[0] <= 4 && |d| == 4 + d[0] * 2
  {
    assert d[0] == |components| / 2;
  }

  /** Segments before the end marker: at most one frame, and scans only after it. */
  ghost predicate Ordered(segments: seq<Segment>) {
    && |segments| <= MAX_STRUCTURE_PARTS
    && (forall i :: 0 <= i < |segments| ==> Shape(segments[i]) && segments[i].code != EOI)
    && (forall i :: 0 <= i < |segments| && IsFrame(segments[i]) ==> FrameFine(segments[i]))
    && (forall i, j :: 0 <= i < j < |segments| && IsFrame(segments[i]) ==> !IsFrame(segments[j]))
    && (forall i :: 0 <= i < |segments| && IsScan(segments[i]) ==> ScanFine(segments[i]) && HasFrame(segments[..i]))
  }

  ghost predicate HasFrame(segments: seq<Segment>) {
    exists i :: 0 <= i < |segments| && IsFrame(segments[i])
  }

  /** Some scan that is followed by entropy-coded data. */
  ghost predicate HasImageData(segments: seq<Segment>) {
    exists i :: 0 <= i < |segments| && IsScan(segments[i]) && segments[i].entropy != []
  }

  /** An ordered list with image data, and room left for the end marker. */
  ghost predicate WellFormed(segments: seq<Segment>) {
    Ordered(segments) && HasImageData(segments) && |segments| < MAX_STRUCTURE_PARTS
  }

  /** The bytes are those of an accepted segment list. */
  ghost predicate Encodes(bytes: seq<byte>, segments: seq<Segment>, end: Segment) {
    && WellFormed(segments) && Shape(end) && end.code == EOI
    && bytes == START_OF_IMAGE + Flatten(segments, Render) + Render(end)
  }

  // ----- Scanning --------------------------------------------------------------------------------------------

  datatype State = State(dimensions: Option<Dimensions>, sawScan: bool, entropyBytes: nat, parts: nat)

  const START := State(None, false, 0, 0)

  /** The state after a segment that is not the end marker. */
  function Take(s: State, seg: Segment): Option<State> {
    if s.parts >= MAX_STRUCTURE_PARTS then None
    else if IsFrame(seg) then
      if s.dimensions.Some? || !FrameFine(seg) then None
      else Some(s.(dimensions := Some(FrameSize(seg)), parts := s.parts + 1))
    else if IsScan(seg) then
      if s.dimensions.None? || !ScanFine(seg) then None
      else Some(s.(sawScan := true, entropyBytes := s.entropyBytes + |seg.entropy|, parts := s.parts + 1))
    else Some(s.(parts := s.parts + 1))
  }

  function Finish(s: State, end: Segment): Option<Dimensions> {
    if s.parts < MAX_STRUCTURE_PARTS && s.sawScan && s.entropyBytes > 0 then s.dimensions else None
  }

  const RULES := Rules(Take, Finish)

  function Width(seg: Segment): (n: nat)
    ensures n >= 2 && n == |Render(seg)|
  {
    seg.fill + 2 + if Lone(seg.code) then 0 else 2 + |seg.data| + |seg.entropy|
  }

  ghost function MediumOf(bytes: seq<byte>): Medium<Segment, byte> {
    Medium((offset: nat) => if offset <= |bytes| then SegmentAt(bytes, offset) else None,
           Render, Shape, (seg: Segment) => seg.code == EOI, (seg: Segment) => seg.code == SOS,
           (offset: nat) => RealMarker(bytes, offset))
  }

  lemma MediumIsFaithful(bytes: seq<byte>)
    ensures Faithful(MediumOf(bytes), bytes)
  {
    var m := MediumOf(bytes);
    forall offset: nat | offset <= |bytes| && m.read(offset).Some?
      ensures m.fine(m.read(offset).value) && Holds(bytes, offset, m.render(m.read(offset).value))
    {
      SegmentAtRenders(bytes, offset, m.read(offset).value);
    }
    forall offset: nat, seg | Ended(m, bytes, offset, seg) ensures m.read(offset) == Some(seg) {
      RenderedSegmentAt(bytes, offset, seg);
    }
    forall offset: nat, seg | m.fine(seg) && Holds(bytes, offset, m.render(seg)) ensures m.stop(offset) {
      RenderedStartsReal(bytes, offset, seg);
    }
  }

  // ----- What a list of segments leads to --------------------------------------------------------------------

  /** The state that an ordered list leads to. */
  ghost predicate Represents(s: State, segments: seq<Segment>) {
    && Ordered(segments)
    && (s.dimensions.Some? <==> HasFrame(segments))
    && (forall i :: 0 <= i < |segments| && IsFrame(segments[i]) ==> s.dimensions == Some(FrameSize(segments[i])))
    && (s.sawScan <==> exists i :: 0 <= i < |segments| && IsScan(segments[i]))
    && (s.entropyBytes > 0 <==> HasImageData(segments))
    && s.parts == |segments|
  }

  lemma HasFrameAppend(segments: seq<Segment>, seg: Segment)
    ensures HasFrame(segments + [seg]) <==> HasFrame(segments) || IsFrame(seg)
  {
    var all := segments + [seg];
    assert all[|segments|] == seg && forall i :: 0 <= i < |segments| ==> all[i] == segments[i];
  }

  lemma HasImageDataAppend(segments: seq<Segment>, seg: Segment)
    ensures HasImageData(segments + [seg]) <==> HasImageData(segments) || (IsScan(seg) && seg.entropy != [])
  {
    var all := segments + [seg];
    assert all[|segments|] == seg && forall i :: 0 <= i < |segments| ==> all[i] == segments[i];
  }

  /** What a segment must be to go on with an ordered list. */
  ghost predicate Continues(segments: seq<Segment>, seg: Segment) {
    && Shape(seg) && seg.code != EOI && |segments| < MAX_STRUCTURE_PARTS
    && (IsFrame(seg) ==> FrameFine(seg) && !HasFrame(segments))
    && (IsScan(seg) ==> ScanFine(seg) && HasFrame(segments))
  }

  lemma OrderedAppend(segments: seq<Segment>, seg: Segment)
    ensures Ordered(segments + [seg]) <==> Ordered(segments) && Continues(segments, seg)
  {
    var all := segments + [seg];
    assert all[|segments|] == seg && forall i :: 0 <= i < |segments| ==> all[i] == segments[i];
    assert forall i :: 0 <= i <= |segments| ==> all[..i] == segments[..i];
    assert segments[..|segments|] == segments;
  }

  lemma TakeExtends(s: State, segments: seq<Segment>, seg: Segment)
    requires Represents(s, segments) && Shape(seg) && seg.code != EOI
    ensures Take(s, seg).Some? <==> Continues(segments, seg)
    ensures Take(s, seg).Some? ==> Represents(Take(s, seg).value, segments + [seg])
  {
    var all := segments + [seg];
    if Take(s, seg).Some? {
      OrderedAppend(segments, seg);
      HasFrameAppend(segments, seg);
      HasImageDataAppend(segments, seg);
      assert all[|segments|] == seg && forall i :: 0 <= i < |segments| ==> all[i] == segments[i];
    }
  }

  /** A list can be taken exactly if it is ordered, and the state says what it needs to. */
  lemma {:induction false} TakenExactly(segments: seq<Segment>)
    requires forall i :: 0 <= i < |segments| ==> Shape(segments[i]) && segments[i].code != EOI
    ensures TakeAll(RULES, START, segments).Some? <==> Ordered(segments)
    ensures TakeAll(RULES, START, segments).Some? ==> Represents(TakeAll(RULES, START, segments).value, segments)
  {
    if segments != [] {
      var front, last := segments[..|segments| - 1], segments[|segments| - 1];
      assert segments == front + [last];
      TakenExactly(front);
      OrderedAppend(front, last);
      if TakeAll(RULES, START, front).Some? {
        TakeExtends(TakeAll(RULES, START, front).value, front, last);
      }
    }
  }

  lemma FinishGivesFrame(s: State, all: seq<Segment>, end: Segment)
    requires Represents(s, all)
    ensures Finish(s, end).Some? <==> WellFormed(all)
    ensures WellFormed(all) ==> forall f :: 0 <= f < |all| && IsFrame(all[f]) ==>
        Finish(s, end) == Some(FrameSize(all[f]))
  {
    if HasImageData(all) {
      var f := WellFormedHasFrame(all);
    }
  }

  lemma WellFormedHasFrame(segments: seq<Segment>) returns (f: nat)
    requires Ordered(segments) && HasImageData(segments)
    ensures f < |segments| && IsFrame(segments[f])
  {
    var i :| 0 <= i < |segments| && IsScan(segments[i]) && segments[i].entropy != [];
    var j :| 0 <= j < |segments[..i]| && IsFrame(segments[..i][j]);
    f := j;
  }

  /** Start marker, a frame, a scan with data, and the end marker: nothing shorter is a JPEG file. */
  lemma EncodedIsLong(bytes: seq<byte>, all: seq<Segment>, end: Segment)
    requires Encodes(bytes, all, end)
    ensures |bytes| >= 14 && START_OF_IMAGE <= bytes
  {
    var f := WellFormedHasFrame(all);
    var seg, offset := ItemOfList(MediumOf(bytes), bytes, START_OF_IMAGE, all, end, f);
    StartsWithHead(MediumOf(bytes), bytes, START_OF_IMAGE, all, end);
  }

  ghost predicate Encoded(bytes: seq<byte>) {
    exists all, end :: Encodes(bytes, all, end)
  }

  ghost function Verdict(bytes: seq<byte>): Option<Dimensions> {
    ScanFrom(RULES, MediumOf(bytes), |bytes|, 2, START)
  }

  lemma VerdictIsFrameSize(bytes: seq<byte>, all: seq<Segment>, end: Segment)
    requires Encodes(bytes, all, end)
    ensures Verdict(bytes).Some?
    ensures forall f :: 0 <= f < |all| && IsFrame(all[f]) ==> Verdict(bytes) == Some(FrameSize(all[f]))
  {
    MediumIsFaithful(bytes);
    TakenExactly(all);
    ScanOfList(RULES, MediumOf(bytes), bytes, START_OF_IMAGE, START, all, end);
    FinishGivesFrame(TakeAll(RULES, START, all).value, all, end);
  }

  lemma VerdictMeansEncoded(bytes: seq<byte>)
    requires START_OF_IMAGE <= bytes && Verdict(bytes).Some?
    ensures Encoded(bytes)
  {
    MediumIsFaithful(bytes);
    var all, end := ListOfScan(RULES, MediumOf(bytes), bytes, START_OF_IMAGE, START);
    TakenExactly(all);
    FinishGivesFrame(TakeAll(RULES, START, all).value, all, end);
    assert Encodes(bytes, all, end);
  }

  // ----- The scanner -----------------------------------------------------------------------------------------

  datatype Marker = Marker(code: byte, nextOffset: nat)

  /** The marker at `offset`, and what follows it. */
  method ReadJpegMarker(bytes: seq<byte>, offset: nat) returns (r: Option<Marker>)
    requires offset < |bytes|
    ensures var j := RunEnd(bytes, offset);
            r == if j == offset || j == |bytes| then None else Some(Marker(bytes[j], j + 1))
  {
    if bytes[offset] != FILL {
      return None;
    }
    var j := offset;
    while j < |bytes| && bytes[j] == FILL
      invariant offset <= j <= |bytes| && (j == offset ==> j < |bytes| && bytes[j] == FILL)
      invariant RunEnd(bytes, j) == RunEnd(bytes, offset)
    {
      j := j + 1;
    }
    r := if j < |bytes| then Some(Marker(bytes[j], j + 1)) else None;
  }

  /** The rest of the segment whose marker has been read. */
  method ReadJpegSegment(bytes: seq<byte>, fill: nat, marker: Marker) returns (r: Option<Segment>)
    requires marker.nextOffset <= |bytes|
    ensures r == SegmentAfter(bytes, fill, marker.code, marker.nextOffset)
  {
    var offset := marker.nextOffset;
    if Forbidden(marker.code) {
      return None;
    }
    if Lone(marker.code) {
      return Some(Segment(fill, marker.code, [], []));
    }
    if |bytes| - offset < 2 {
      return None;
    }
    var segmentLength := BE16(bytes[offset], bytes[offset + 1]);
    if segmentLength < 2 || segmentLength > |bytes| - offset {
      return None;
    }
    var dataStart, segmentEnd := offset + 2, offset + segmentLength;
    if marker.code != SOS {
      return Some(Segment(fill, marker.code, bytes[dataStart..segmentEnd], []));
    }
    NextMarkerIsFirst(bytes, segmentEnd);
    var nextMarker := FindJpegMarkerAfterScan(bytes, segmentEnd);
    if nextMarker.None? {
      return None;
    }
    r := Some(Segment(fill, marker.code, bytes[dataStart..segmentEnd], bytes[segmentEnd..nextMarker.value]));
  }

  /**
   The size of a JPEG image: returned exactly if the bytes encode an accepted segment list, and the one
   that the frame of any such list states.  The loop ends, and every read is inside the bytes.
   */
  method ReadJpegDimensions(bytes: seq<byte>) returns (r: Option<Dimensions>)
    ensures forall all, end, f :: Encodes(bytes, all, end) && 0 <= f < |all| && IsFrame(all[f]) ==>
        r == Some(FrameSize(all[f]))
    ensures r.Some? <==> Encoded(bytes)
  {
    if |bytes| < 14 || bytes[0] != FILL || bytes[1] != SOI {
      assert |bytes| < 14 || !(START_OF_IMAGE <= bytes);
      forall all, end | Encodes(bytes, all, end) ensures false {
        EncodedIsLong(bytes, all, end);
      }
      return None;
    }
    assert START_OF_IMAGE <= bytes;
    forall all, end | Encodes(bytes, all, end)
      ensures Verdict(bytes).Some?
      ensures forall f :: 0 <= f < |all| && IsFrame(all[f]) ==> Verdict(bytes) == Some(FrameSize(all[f]))
    {
      VerdictIsFrameSize(bytes, all, end);
    }
    if Verdict(bytes).Some? {
      VerdictMeansEncoded(bytes);
    }
    r := ScanSegments(bytes, RULES, START, MediumOf(bytes));
  }

  /** The medium reads the segments of these bytes. */
  ghost predicate Reads(m: Medium<Segment, byte>, bytes: seq<byte>) {
    && (forall offset: nat {:trigger SegmentAt(bytes, offset)} :: offset <= |bytes| ==>
        m.read(offset) == SegmentAt(bytes, offset))
    && (forall seg :: |m.render(seg)| == Width(seg))
    && (forall seg :: m.isEnd(seg) <==> seg.code == EOI)
  }

  method ScanSegments<S, R>(bytes: seq<byte>, rules: Rules<S, Segment, R>, initial: S, ghost m: Medium<Segment, byte>)
    returns (r: Option<R>)
    requires |bytes| >= 2 && Reads(m, bytes)
    ensures r == ScanFrom(rules, m, |bytes|, 2, initial)
  {
    hide Width, Shape, Render;
    var offset: nat, state := 2, initial;
    ghost var verdict := ScanFrom(rules, m, |bytes|, 2, initial);
    while offset < |bytes|
      invariant 2 <= offset <= |bytes| && verdict == ScanFrom(rules, m, |bytes|, offset, state)
      decreases |bytes| - offset
    {
      var segment := ReadSegmentAt(bytes, offset, m);
      if segment.None? {
        return None;
      }
      ScanStep(rules, m, |bytes|, offset, state, segment.value, Width(segment.value));
      var next := offset + Width(segment.value);
      if segment.value.code == EOI {
        return if next == |bytes| then rules.finish(state, segment.value) else None;
      }
      var taken := rules.take(state, segment.value);
      if taken.None? {
        return None;
      }
      offset, state := next, taken.value;
    }
    r := None;
  }

  method ReadSegmentAt(bytes: seq<byte>, offset: nat, ghost m: Medium<Segment, byte>) returns (r: Option<Segment>)
    requires offset < |bytes| && Reads(m, bytes)
    ensures r == m.read(offset)
    ensures r.Some? ==> offset + Width(r.value) <= |bytes|
  {
    var marker := ReadJpegMarker(bytes, offset);
    if marker.None? {
      assert SegmentAt(bytes, offset) == None;
      return None;
    }
    r := ReadJpegSegment(bytes, marker.value.nextOffset - offset - 2, marker.value);
    assert SegmentAt(bytes, offset) == r;
    if r.Some? {
      SegmentAtRenders(bytes, offset, r.value);
    }
  }
}
