/** The GIF scanner. */
module GifStructure {
  import opened Common
  import opened GifBlocks
  import opened Images
  import opened ItemStream
  import opened Layout

  // Which block lists are accepted, the loop over the blocks, and the proof that the loop accepts exactly the
  // bytes of those lists.  Section numbers refer to GIF89a.

  // ----- Which files are accepted ------------------------------------------------------------------------------

  datatype Screen = Screen(size: Dimensions, hasGlobalColorTable: bool)

  /** The logical screen descriptor (section 18), after six bytes of signature and version. */
  function ScreenOf(bytes: seq<byte>): Screen
    requires |bytes| >= 13
  {
    Screen(Dimensions(LE16(bytes[6], bytes[7]), LE16(bytes[8], bytes[9])), bytes[10] >= 0x80)
  }

  /** Where the blocks start: after the screen descriptor and the global color table. */
  function HeadLength(bytes: seq<byte>): nat
    requires |bytes| >= 13
  {
    13 + TableBytes(bytes[10])
  }

  /** The screen and the start of the blocks, from the bytes of the screen descriptor (section 18). */
  lemma ScreensExactly(bytes: seq<byte>, width: nat, height: nat)
    requires |bytes| >= 13
    ensures ScreenOf(bytes).size == Dimensions(width, height) <==>
      width < 0x10000 && height < 0x10000 && bytes[6..10] == [width % 256, width / 256, height % 256, height / 256]
    ensures ScreenOf(bytes).hasGlobalColorTable <==> bytes[10] / 128 == 1
    ensures HeadLength(bytes) == 13 + if bytes[10] / 128 == 1 then 3 * Pow2(bytes[10] % 8 + 1) else 0
  {
    assert bytes[6..10] == [bytes[6], bytes[7], bytes[8], bytes[9]];
    TableBytesExactly(bytes[10]);
    if width < 0x10000 && height < 0x10000 && bytes[6..10] == [width % 256, width / 256, height % 256, height / 256] {
      assert bytes[6] == bytes[6..10][0] && bytes[7] == bytes[6..10][1];
      assert bytes[8] == bytes[6..10][2] && bytes[9] == bytes[6..10][3];
    }
  }

  predicate IsImage(x: Block) {
    x.Image?
  }

  /** The image lies inside the screen, and has a color table, its own or the global one. */
  predicate FitsScreen(screen: Screen, x: Block)
    requires x.Image? && |x.descriptor| == 9
  {
    var d := x.descriptor;
    && LE16(d[0], d[1]) + LE16(d[4], d[5]) <= screen.size.width
    && LE16(d[2], d[3]) + LE16(d[6], d[7]) <= screen.size.height
    && (screen.hasGlobalColorTable || d[8] >= 0x80)
  }

  /** The image's place and size, and the flag for its own color table, are what its descriptor says. */
  lemma FitsExactly(screen: Screen, x: Block, left: nat, top: nat, width: nat, height: nat, packed: byte)
    requires x.Image? && WritesDescriptor(x.descriptor, left, top, width, height, packed)
    ensures FitsScreen(screen, x) <==>
      && left + width <= screen.size.width && top + height <= screen.size.height
      && (screen.hasGlobalColorTable || packed / 128 == 1)
  {
    hide LE16, WritesDescriptor;
    WrittenDescriptor(x.descriptor, left, top, width, height, packed);
  }

  function PartsOf(x: Block): nat {
    1 + SubParts(x)
  }

  /** A block is one part, and its sub-blocks and their terminator are one each. */
  lemma PartsExactly(x: Block)
    ensures PartsOf(x) == if x.Extension? || x.Image? then |x.subs| + 2 else 1
  {
  }

  ghost predicate EachFine(screen: Screen, blocks: seq<Block>) {
    && (forall i :: 0 <= i < |blocks| ==> Fine(blocks[i]) && !blocks[i].Trailer?)
    && (forall i :: 0 <= i < |blocks| && IsImage(blocks[i]) ==> FitsScreen(screen, blocks[i]))
  }

  ghost predicate OneImage(blocks: seq<Block>) {
    forall i, j :: 0 <= i < j < |blocks| && IsImage(blocks[i]) ==> !IsImage(blocks[j])
  }

  /** Blocks before the trailer: at most one image, which fits the screen, and not too many parts in all. */
  ghost predicate Acceptable(screen: Screen, blocks: seq<Block>) {
    EachFine(screen, blocks) && OneImage(blocks) && Sum(blocks, PartsOf) <= MAX_STRUCTURE_PARTS
  }

  ghost predicate HasImage(blocks: seq<Block>) {
    exists i :: 0 <= i < |blocks| && IsImage(blocks[i])
  }

  /** Exactly one image, and room left for the trailer. */
  ghost predicate WellFormed(screen: Screen, blocks: seq<Block>) {
    Acceptable(screen, blocks) && HasImage(blocks) && Sum(blocks, PartsOf) < MAX_STRUCTURE_PARTS
  }

  /** The bytes are a head with a valid size, an accepted block list, and the trailer that ends the file. */
  ghost predicate Encodes(bytes: seq<byte>, blocks: seq<Block>) {
    && |bytes| >= 14 && HeadLength(bytes) <= |bytes|
    && ValidDimensions(ScreenOf(bytes).size)
    && WellFormed(ScreenOf(bytes), blocks)
    && bytes == bytes[..HeadLength(bytes)] + Flatten(blocks, Render) + Render(Trailer)
  }

  // ----- What a list of blocks leads to ----------------------------------------------------------------------

  datatype State = State(sawImage: bool, parts: nat)

  const START := State(false, 0)

  function Take(screen: Screen, s: State, x: Block): Option<State> {
    if s.parts + PartsOf(x) > MAX_STRUCTURE_PARTS then None
    else if !x.Image? then Some(State(s.sawImage, s.parts + PartsOf(x)))
    else if s.sawImage || |x.descriptor| != 9 || !FitsScreen(screen, x) then None
    else Some(State(true, s.parts + PartsOf(x)))
  }

  function Finish(screen: Screen, s: State): Option<Dimensions> {
    if s.parts < MAX_STRUCTURE_PARTS && s.sawImage then Some(screen.size) else None
  }

  function RulesOf(screen: Screen): Rules<State, Block, Dimensions> {
    Rules((s: State, x: Block) => Take(screen, s, x), (s: State, x: Block) => Finish(screen, s))
  }

  ghost predicate Represents(screen: Screen, s: State, blocks: seq<Block>) {
    && Acceptable(screen, blocks)
    && (s.sawImage <==> HasImage(blocks))
    && s.parts == Sum(blocks, PartsOf)
  }

  lemma HasImageAppend(blocks: seq<Block>, x: Block)
    ensures HasImage(blocks + [x]) <==> HasImage(blocks) || IsImage(x)
  {
    var all := blocks + [x];
    assert all[|blocks|] == x && forall i :: 0 <= i < |blocks| ==> all[i] == blocks[i];
  }

  lemma EachFineAppend(screen: Screen, blocks: seq<Block>, x: Block)
    requires Fine(x) && !x.Trailer?
    ensures EachFine(screen, blocks + [x]) <==> EachFine(screen, blocks) && (IsImage(x) ==> FitsScreen(screen, x))
  {
    var all := blocks + [x];
    assert all[|blocks|] == x && forall i :: 0 <= i < |blocks| ==> all[i] == blocks[i];
    assert IsImage(x) ==> |x.descriptor| == 9;
    hide FitsScreen, Fine;
    forall i | 0 <= i < |blocks| ensures blocks[i] == all[i] {
    }
  }

  lemma OneImageAppend(blocks: seq<Block>, x: Block)
    ensures OneImage(blocks + [x]) <==> OneImage(blocks) && !(IsImage(x) && HasImage(blocks))
  {
    var all := blocks + [x];
    assert all[|blocks|] == x && forall i :: 0 <= i < |blocks| ==> all[i] == blocks[i];
    forall i | 0 <= i < |blocks| ensures blocks[i] == all[i] {
    }
  }

  lemma TakeExtends(screen: Screen, s: State, blocks: seq<Block>, x: Block)
    requires Represents(screen, s, blocks) && Fine(x) && !x.Trailer?
    ensures Take(screen, s, x).Some? <==> Acceptable(screen, blocks + [x])
    ensures Take(screen, s, x).Some? ==> Represents(screen, Take(screen, s, x).value, blocks + [x])
  {
    assert IsImage(x) ==> |x.descriptor| == 9;
    hide EachFine, OneImage, HasImage, FitsScreen, Fine, PartsOf;
    EachFineAppend(screen, blocks, x);
    OneImageAppend(blocks, x);
    HasImageAppend(blocks, x);
    SumAppend(blocks, x, PartsOf);
  }

  lemma AcceptablePrefix(screen: Screen, blocks: seq<Block>, x: Block)
    requires Acceptable(screen, blocks + [x])
    ensures Acceptable(screen, blocks)
  {
    var all := blocks + [x];
    assert all[|blocks|] == x && forall i :: 0 <= i < |blocks| ==> all[i] == blocks[i];
    SumAppend(blocks, x, PartsOf);
  }

  /** A list can be taken exactly if it is acceptable, and the state says what it needs to. */
  lemma {:induction false} TakenExactly(screen: Screen, blocks: seq<Block>)
    requires forall i :: 0 <= i < |blocks| ==> Fine(blocks[i]) && !blocks[i].Trailer?
    ensures TakeAll(RulesOf(screen), START, blocks).Some? <==> Acceptable(screen, blocks)
    ensures TakeAll(RulesOf(screen), START, blocks).Some? ==>
      Represents(screen, TakeAll(RulesOf(screen), START, blocks).value, blocks)
  {
    if blocks != [] {
      var front, last := blocks[..|blocks| - 1], blocks[|blocks| - 1];
      assert blocks == front + [last];
      TakenExactly(screen, front);
      if TakeAll(RulesOf(screen), START, front).Some? {
        TakeExtends(screen, TakeAll(RulesOf(screen), START, front).value, front, last);
      } else if Acceptable(screen, blocks) {
        AcceptablePrefix(screen, front, last);
      }
    }
  }

  // ----- Scanning --------------------------------------------------------------------------------------------

  ghost function MediumOf(bytes: seq<byte>): Medium<Block, byte> {
    Medium((offset: nat) => BlockAt(bytes, offset), Render, Fine, (x: Block) => x.Trailer?,
           (x: Block) => false, (offset: nat) => true)
  }

  lemma MediumIsFaithful(bytes: seq<byte>)
    ensures Faithful(MediumOf(bytes), bytes)
  {
    var m := MediumOf(bytes);
    forall offset: nat | offset <= |bytes| && m.read(offset).Some?
      ensures m.fine(m.read(offset).value) && Holds(bytes, offset, m.render(m.read(offset).value))
    {
      BlockIsFine(bytes, offset);
      BlockExactly(bytes, offset, m.read(offset).value);
    }
    forall offset: nat, x | Ended(m, bytes, offset, x) ensures m.read(offset) == Some(x) {
      BlockExactly(bytes, offset, x);
    }
  }

  ghost predicate Encoded(bytes: seq<byte>) {
    exists blocks :: Encodes(bytes, blocks)
  }

  ghost function Verdict(bytes: seq<byte>): Option<Dimensions>
    requires |bytes| >= 13
  {
    ScanFrom(RulesOf(ScreenOf(bytes)), MediumOf(bytes), |bytes|, HeadLength(bytes), START)
  }

  lemma VerdictIsScreenSize(bytes: seq<byte>, blocks: seq<Block>)
    requires Encodes(bytes, blocks)
    ensures Verdict(bytes) == Some(ScreenOf(bytes).size)
  {
    var screen := ScreenOf(bytes);
    MediumIsFaithful(bytes);
    TakenExactly(screen, blocks);
    ScanOfList(RulesOf(screen), MediumOf(bytes), bytes, bytes[..HeadLength(bytes)], START, blocks, Trailer);
  }

  lemma VerdictMeansEncoded(bytes: seq<byte>)
    requires |bytes| >= 14 && HeadLength(bytes) <= |bytes| && ValidDimensions(ScreenOf(bytes).size)
    requires Verdict(bytes).Some?
    ensures Encoded(bytes)
  {
    var screen := ScreenOf(bytes);
    MediumIsFaithful(bytes);
    var blocks, end := ListOfScan(RulesOf(screen), MediumOf(bytes), bytes, bytes[..HeadLength(bytes)], START);
    TakenExactly(screen, blocks);
    assert Encodes(bytes, blocks);
  }

  // ----- The scanner -----------------------------------------------------------------------------------------

  /** Skips the extension whose label has been read, sub-blocks counted. */
  method SkipGifExtension(bytes: seq<byte>, start: nat, kind: byte, startParts: nat)
      returns (end: Option<nat>, parts: nat)
    requires start <= |bytes| && startParts <= MAX_STRUCTURE_PARTS
    ensures SkipsTo(ExtensionAfter(bytes, kind, start), start - 2, startParts, end, parts)
  {
    var offset := start;
    if kind == GRAPHIC_CONTROL {
      parts := startParts;
      end := if |bytes| - offset >= 6 && bytes[offset] == 4 && bytes[offset + 1] < 0x20 && bytes[offset + 5] == 0
             then Some(offset + 6) else None;
      return;
    }
    if kind == APPLICATION || kind == PLAIN_TEXT {
      var requiredHeaderLength := if kind == APPLICATION then 11 else 12;
      if offset >= |bytes| || bytes[offset] != requiredHeaderLength {
        return None, startParts;
      }
      offset := offset + 1 + requiredHeaderLength;
    }
    end, parts := SkipGifSubBlocks(bytes, offset, startParts, false);
  }

  /** The block at `offset` is skipped, unless there is none or its parts are too many. */
  ghost predicate SkipsTo(x: Option<Block>, offset: int, parts: nat, end: Option<nat>, newParts: nat) {
    if x.None? || parts + SubParts(x.value) > MAX_STRUCTURE_PARTS then end == None
    else end == Some(offset + |Render(x.value)|) && newParts == parts + SubParts(x.value)
  }

  /** Skips the image whose separator has been read, if it fits the screen. */
  method SkipGifImage(bytes: seq<byte>, start: nat, screen: Screen, startParts: nat)
      returns (end: Option<nat>, parts: nat)
    requires 1 <= start <= |bytes| && startParts <= MAX_STRUCTURE_PARTS
    ensures var x := ImageAfter(bytes, start);
            SkipsTo(if x.Some? && FitsScreen(screen, x.value) then x else None, start - 1, startParts, end, parts)
  {
    parts := startParts;
    if |bytes| - start < 9 {
      return None, parts;
    }
    var d := bytes[start..start + 9];
    var left, top, width, height := LE16(d[0], d[1]), LE16(d[2], d[3]), LE16(d[4], d[5]), LE16(d[6], d[7]);
    var packed := d[8];
    if width == 0 || height == 0 || left + width > screen.size.width || top + height > screen.size.height
       || packed / 8 % 4 != 0 {
      return None, parts;
    }
    var offset := start + 9;
    var hasLocalColorTable := packed >= 0x80;
    if !screen.hasGlobalColorTable && !hasLocalColorTable {
      return None, parts;
    }
    offset := offset + TableBytes(packed);
    if offset >= |bytes| || bytes[offset] < 2 || bytes[offset] > 8 {
      return None, parts;
    }
    end, parts := SkipGifSubBlocks(bytes, offset + 1, startParts, true);
  }

  /** The medium reads the blocks of these bytes. */
  ghost predicate Reads(m: Medium<Block, byte>, bytes: seq<byte>) {
    && (forall offset: nat {:trigger BlockAt(bytes, offset)} :: m.read(offset) == BlockAt(bytes, offset))
    && (forall x {:trigger Render(x)} :: m.render(x) == Render(x))
    && (forall x :: m.isEnd(x) <==> x.Trailer?)
  }

  lemma FullStops(screen: Screen, m: Medium<Block, byte>, length: nat, offset: nat, s: State)
    requires s.parts >= MAX_STRUCTURE_PARTS
    ensures ScanFrom(RulesOf(screen), m, length, offset, s) == None
  {
  }

  /** One turn of the loop, in terms of the block that the turn is about. */
  lemma Turn(bytes: seq<byte>, screen: Screen, m: Medium<Block, byte>, offset: nat, s: State)
    requires offset < |bytes| && s.parts < MAX_STRUCTURE_PARTS && Reads(m, bytes)
    ensures var r := ScanFrom(RulesOf(screen), m, |bytes|, offset, s);
            match BlockAt(bytes, offset)
            case None => r == None
            case Some(x) =>
              if x.Trailer? then r == if offset + 1 == |bytes| && s.sawImage then Some(screen.size) else None
              else if Take(screen, s, x).None? then r == None
              else r == ScanFrom(RulesOf(screen), m, |bytes|, offset + |Render(x)|, Take(screen, s, x).value)
  {
    var read := BlockAt(bytes, offset);
    if read.Some? {
      ScanStep(RulesOf(screen), m, |bytes|, offset, s, read.value, |Render(read.value)|);
    }
  }

  /** Where the block behind an introducer other than the trailer ends, and the state after it. */
  method ReadGifBlock(bytes: seq<byte>, start: nat, screen: Screen, s: State) returns (end: Option<nat>, next: State)
    requires start < |bytes| && bytes[start] != TRAILER && s.parts < MAX_STRUCTURE_PARTS
    ensures var x := BlockAt(bytes, start);
            if x.None? || Take(screen, s, x.value).None? then end == None
            else end == Some(start + |Render(x.value)|) && Take(screen, s, x.value) == Some(next)
  {
    next := State(s.sawImage, s.parts + 1);
    var introducer, offset := bytes[start], start + 1;
    if introducer == EXTENSION {
      if offset >= |bytes| {
        return None, next;
      }
      var parts;
      end, parts := SkipGifExtension(bytes, offset + 1, bytes[offset], next.parts);
      next := if end.Some? then State(s.sawImage, parts) else next;
      return;
    }
    if introducer != IMAGE || s.sawImage {
      return None, next;
    }
    var parts;
    end, parts := SkipGifImage(bytes, offset, screen, next.parts);
    next := if end.Some? then State(true, parts) else next;
  }

  method ScanBlocks(bytes: seq<byte>, start: nat, screen: Screen, ghost m: Medium<Block, byte>)
      returns (r: Option<Dimensions>)
    requires start <= |bytes| && Reads(m, bytes)
    ensures r == ScanFrom(RulesOf(screen), m, |bytes|, start, START)
  {
    var offset, state := start, START;
    ghost var rules := RulesOf(screen);
    ghost var verdict := ScanFrom(rules, m, |bytes|, start, START);
    while offset < |bytes| && state.parts < MAX_STRUCTURE_PARTS
      invariant start <= offset <= |bytes| && state.parts <= MAX_STRUCTURE_PARTS
      invariant verdict == ScanFrom(rules, m, |bytes|, offset, state)
      decreases |bytes| - offset
    {
      Turn(bytes, screen, m, offset, state);
      SkippedIsInside(bytes, offset);
      if bytes[offset] == TRAILER {
        return if offset + 1 == |bytes| && state.sawImage then Some(screen.size) else None;
      }
      var end, next := ReadGifBlock(bytes, offset, screen, state);
      if end.None? {
        return None;
      }
      offset, state := end.value, next;
    }
    if state.parts >= MAX_STRUCTURE_PARTS {
      FullStops(screen, m, |bytes|, offset, state);
    }
    r := None;
  }

  lemma SkippedIsInside(bytes: seq<byte>, offset: nat)
    ensures BlockAt(bytes, offset).Some? ==> offset + |Render(BlockAt(bytes, offset).value)| <= |bytes|
  {
    if BlockAt(bytes, offset).Some? {
      BlockIsFine(bytes, offset);
      BlockExactly(bytes, offset, BlockAt(bytes, offset).value);
    }
  }

  /**
   The size of a GIF image: returned exactly if the bytes encode an accepted block list, which has exactly
   one image and ends with the trailer.  The loops end, and every read is inside the bytes.
   */
  method ReadGifDimensions(bytes: seq<byte>) returns (r: Option<Dimensions>)
    ensures r.Some? <==> Encoded(bytes)
    ensures r.Some? ==> |bytes| >= 14 && r.value == ScreenOf(bytes).size
  {
    if |bytes| < 14 {
      return None;
    }
    var screen := ScreenOf(bytes);
    if !ValidDimensions(screen.size) {
      return None;
    }
    var offset := HeadLength(bytes);
    if offset > |bytes| {
      return None;
    }
    forall blocks | Encodes(bytes, blocks) ensures Verdict(bytes) == Some(screen.size) {
      VerdictIsScreenSize(bytes, blocks);
    }
    if Verdict(bytes).Some? {
      VerdictMeansEncoded(bytes);
    }
    r := ScanBlocks(bytes, offset, screen, MediumOf(bytes));
  }
}
