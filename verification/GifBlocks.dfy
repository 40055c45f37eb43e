/**
 GIF files as blocks: extensions, images and the trailer, the data sub-blocks inside them (section 15 of
 GIF89a), and the block that starts at a given place.
 */
module GifBlocks {
  import opened Common
  import opened Images
  import opened Layout

  const MAX_STRUCTURE_PARTS := 100_000

  const EXTENSION: byte := 0x21
  const IMAGE: byte := 0x2c
  const TRAILER: byte := 0x3b
  const GRAPHIC_CONTROL: byte := 0xf9
  const APPLICATION: byte := 0xff
  const PLAIN_TEXT: byte := 0x01

  // ----- Sub-blocks --------------------------------------------------------------------------------------------

  datatype RawSubBlock = SubBlock(data: seq<byte>)

  type SubBlock = s: RawSubBlock | 1 <= |s.data| <= 255 witness SubBlock([0])

  /** Each sub-block is a length and that many bytes; a zero length ends the list. */
  function RenderSubBlocks(subs: seq<SubBlock>): (b: seq<byte>)
    ensures |b| > |subs|
  {
    if subs == [] then [0] else [|subs[0].data|] + subs[0].data + RenderSubBlocks(subs[1..])
  }

  /** The sub-blocks from `offset` up to the terminator. */
  function SubBlocksAt(b: seq<byte>, offset: nat): Option<seq<SubBlock>>
    decreases |b| - offset
  {
    if offset >= |b| then None
    else if b[offset] == 0 then Some([])
    else if b[offset] > |b| - offset - 1 then None
    else
      var next := offset + 1 + b[offset];
      match SubBlocksAt(b, next)
      case None => None
      case Some(tail) => Some([SubBlock(b[offset + 1..next])] + tail)
  }

  lemma FirstSubBlock(b: seq<byte>, offset: nat, first: SubBlock, rest: seq<byte>)
    requires offset < |b|
    ensures var next := offset + 1 + |first.data|;
            Holds(b, offset, [|first.data|] + first.data + rest)
            <==> b[offset] == |first.data| && next <= |b| && b[offset + 1..next] == first.data && Holds(b, next, rest)
  {
    HoldsThree(b, offset, [|first.data|], first.data, rest);
    assert b[offset..offset + 1] == [b[offset]];
  }

  /** Reading sub-blocks finds a list exactly where that list is rendered. */
  lemma {:induction false} SubBlocksExactly(b: seq<byte>, offset: nat, subs: seq<SubBlock>)
    ensures SubBlocksAt(b, offset) == Some(subs) <==> Holds(b, offset, RenderSubBlocks(subs))
    decreases |b| - offset
  {
    if offset < |b| {
      if subs == [] {
        assert b[offset..offset + 1] == [b[offset]];
      } else {
        FirstSubBlock(b, offset, subs[0], RenderSubBlocks(subs[1..]));
        if 0 < b[offset] <= |b| - offset - 1 {
          ConsEquals(b, offset, subs);
          SubBlocksExactly(b, offset + 1 + b[offset], subs[1..]);
        }
      }
    }
  }

  lemma ConsEquals(b: seq<byte>, offset: nat, subs: seq<SubBlock>)
    requires offset < |b| && 0 < b[offset] <= |b| - offset - 1 && subs != []
    ensures var next := offset + 1 + b[offset];
            SubBlocksAt(b, offset) == Some(subs)
            <==> SubBlock(b[offset + 1..next]) == subs[0] && SubBlocksAt(b, next) == Some(subs[1..])
  {
    assert subs == [subs[0]] + subs[1..];
    var next := offset + 1 + b[offset];
    if SubBlocksAt(b, next).Some? {
      var all := [SubBlock(b[offset + 1..next])] + SubBlocksAt(b, next).value;
      assert all[0] == SubBlock(b[offset + 1..next]) && all[1..] == SubBlocksAt(b, next).value;
    }
  }

  /** A skipped list of sub-blocks, and how many parts it counts for. */
  ghost predicate Skips(b: seq<byte>, offset: nat, parts: nat, requireData: bool, end: Option<nat>, newParts: nat) {
    match SubBlocksAt(b, offset)
    case None => end == None
    case Some(subs) =>
      if parts + |subs| + 1 > MAX_STRUCTURE_PARTS || (requireData && subs == []) then end == None
      else end == Some(offset + |RenderSubBlocks(subs)|) && newParts == parts + |subs| + 1
  }

  lemma SkipStep(b: seq<byte>, offset: nat)
    requires offset < |b| && 0 < b[offset] <= |b| - offset - 1
    ensures var next, subs := offset + 1 + b[offset], SubBlocksAt(b, offset);
            match SubBlocksAt(b, next)
            case None => subs == None
            case Some(tail) => subs.Some? && |subs.value| == |tail| + 1
                               && |RenderSubBlocks(subs.value)| == 1 + b[offset] + |RenderSubBlocks(tail)|
  {
    var next := offset + 1 + b[offset];
    if SubBlocksAt(b, next).Some? {
      var all := [SubBlock(b[offset + 1..next])] + SubBlocksAt(b, next).value;
      assert all[1..] == SubBlocksAt(b, next).value;
    }
  }

  /** Skips the sub-blocks at `start`: just past the terminator of the list that is rendered there. */
  method SkipGifSubBlocks(bytes: seq<byte>, start: nat, startParts: nat, requireData: bool)
      returns (end: Option<nat>, parts: nat)
    requires startParts <= MAX_STRUCTURE_PARTS
    ensures Skips(bytes, start, startParts, requireData, end, parts)
    ensures end.Some? ==> start < end.value <= |bytes| && startParts <= parts <= MAX_STRUCTURE_PARTS
  {
    var offset, sawData := start, false;
    parts := startParts;
    while offset < |bytes| && parts < MAX_STRUCTURE_PARTS
      invariant start <= offset && startParts <= parts <= MAX_STRUCTURE_PARTS
      invariant start < |bytes| ==> offset <= |bytes|
      invariant sawData <==> parts > startParts
      invariant match SubBlocksAt(bytes, offset)
                case None => SubBlocksAt(bytes, start) == None
                case Some(tail) =>
                  var subs := SubBlocksAt(bytes, start);
                  && subs.Some? && |subs.value| == |tail| + (parts - startParts)
                  && start + |RenderSubBlocks(subs.value)| == offset + |RenderSubBlocks(tail)|
    {
      ghost var before := offset;
      parts := parts + 1;
      var length := bytes[offset];
      offset := offset + 1;
      if length == 0 {
        return if requireData && !sawData then None else Some(offset), parts;
      }
      sawData := true;
      if length > |bytes| - offset {
        return None, parts;
      }
      SkipStep(bytes, before);
      offset := offset + length;
    }
    end := None;
  }

  // ----- Blocks ------------------------------------------------------------------------------------------------

  datatype RawBlock =
    | Control(fields: seq<byte>)
    | Extension(kind: byte, header: seq<byte>, subs: seq<SubBlock>)
    | Image(descriptor: seq<byte>, table: seq<byte>, minCodeSize: byte, subs: seq<SubBlock>)
    | Trailer

  type Block = x: RawBlock | (x.Extension? ==> |x.header| <= 12) witness Trailer

  /** The fixed header of an application or plain text extension. */
  function HeaderLength(kind: byte): byte {
    if kind == APPLICATION then 11 else if kind == PLAIN_TEXT then 12 else 0
  }

  /** A color table of 3 * 2^(n + 1) bytes, if the flag for it is set; n is the low three bits. */
  function TableBytes(packed: byte): nat {
    if packed < 0x80 then 0 else [6, 12, 24, 48, 96, 192, 384, 768][packed % 8]
  }

  /** The top bit is the flag, the low three bits tell the size: three bytes for each of 2^(n + 1) colors. */
  lemma TableBytesExactly(packed: byte)
    ensures TableBytes(packed) == if packed / 128 == 1 then 3 * Pow2(packed % 8 + 1) else 0
  {
    PowersOfTwo();
    assert 0 <= packed % 8 < 8;
  }

  lemma PowersOfTwo()
    ensures Pow2(1) == 2 && Pow2(2) == 4 && Pow2(3) == 8 && Pow2(4) == 16
    ensures Pow2(5) == 32 && Pow2(6) == 64 && Pow2(7) == 128 && Pow2(8) == 256
  {
    assert Pow2(4) == 2 * Pow2(3) && Pow2(5) == 2 * Pow2(4) && Pow2(6) == 2 * Pow2(5);
    assert Pow2(7) == 2 * Pow2(6) && Pow2(8) == 2 * Pow2(7);
  }

  function LE16(low: byte, high: byte): nat {
    high * 0x100 + low
  }

  /** An image of some size, with the two reserved bits clear. */
  predicate DescriptorFine(d: seq<byte>) {
    && |d| == 9
    && LE16(d[4], d[5]) != 0 && LE16(d[6], d[7]) != 0
    && d[8] / 8 % 4 == 0
  }

  /** A descriptor as it is laid out: place and size in two bytes each, low byte first, and the flags (section 20). */
  ghost predicate WritesDescriptor(d: seq<byte>, left: nat, top: nat, width: nat, height: nat, packed: byte) {
    && left < 0x10000 && top < 0x10000 && width < 0x10000 && height < 0x10000
    && d == [left % 256, left / 256, top % 256, top / 256, width % 256, width / 256, height % 256, height / 256, packed]
  }

  lemma LE16Exactly(low: byte, high: byte)
    ensures var n := LE16(low, high); n < 0x10000 && n % 256 == low && n / 256 == high
  {
  }

  lemma DescriptorIsWritten(d: seq<byte>)
    requires |d| == 9
    ensures WritesDescriptor(d, LE16(d[0], d[1]), LE16(d[2], d[3]), LE16(d[4], d[5]), LE16(d[6], d[7]), d[8])
  {
    hide LE16;
    LE16Exactly(d[0], d[1]);
    LE16Exactly(d[2], d[3]);
    LE16Exactly(d[4], d[5]);
    LE16Exactly(d[6], d[7]);
  }

  lemma WrittenDescriptor(d: seq<byte>, left: nat, top: nat, width: nat, height: nat, packed: byte)
    requires WritesDescriptor(d, left, top, width, height, packed)
    ensures |d| == 9 && LE16(d[0], d[1]) == left && LE16(d[2], d[3]) == top
    ensures LE16(d[4], d[5]) == width && LE16(d[6], d[7]) == height && d[8] == packed
  {
  }

  lemma ReservedBits(packed: byte)
    ensures packed / 8 % 4 == 0 <==> packed / 16 % 2 == 0 && packed / 8 % 2 == 0
  {
    assert packed / 8 % 4 == 2 * (packed / 16 % 2) + packed / 8 % 2;
  }

  lemma DescriptorsExactly(d: seq<byte>)
    ensures DescriptorFine(d) <==>
      exists left, top, width, height, packed ::
        WritesDescriptor(d, left, top, width, height, packed) && width >= 1 && height >= 1
        && packed / 16 % 2 == 0 && packed / 8 % 2 == 0
  {
    hide LE16, WritesDescriptor;
    if DescriptorFine(d) {
      DescriptorIsWritten(d);
      ReservedBits(d[8]);
    }
    if left, top, width, height, packed :|
        WritesDescriptor(d, left, top, width, height, packed) && width >= 1 && height >= 1
        && packed / 16 % 2 == 0 && packed / 8 % 2 == 0 {
      WrittenDescriptor(d, left, top, width, height, packed);
      ReservedBits(packed);
    }
  }

  predicate Fine(x: Block) {
    match x
    case Control(fields) => |fields| == 4 && fields[0] < 0x20
    case Extension(kind, header, _) => kind != GRAPHIC_CONTROL && |header| == HeaderLength(kind)
    case Image(d, table, minCodeSize, subs) =>
      DescriptorFine(d) && |table| == TableBytes(d[8]) && 2 <= minCodeSize <= 8 && subs != []
    case Trailer => true
  }

  /** Application and plain text extensions have a header, of eleven and twelve bytes; no other extension has one. */
  lemma ExtensionsExactly(kind: byte, header: seq<byte>, subs: seq<SubBlock>)
    requires |header| <= 12
    ensures Fine(Extension(kind, header, subs)) <==>
      && kind != 0xf9 && (kind == 0xff ==> |header| == 11) && (kind == 0x01 ==> |header| == 12)
      && (kind !in {0xff, 0x01} ==> header == [])
  {
  }

  function RenderHeader(header: seq<byte>): seq<byte>
    requires |header| <= 12
  {
    if header == [] then [] else [|header|] + header
  }

  function Render(x: Block): (b: seq<byte>)
    ensures |b| > 0
  {
    match x
    case Control(fields) => [EXTENSION, GRAPHIC_CONTROL, 4] + fields + [0]
    case Extension(kind, header, subs) => [EXTENSION, kind] + RenderHeader(header) + RenderSubBlocks(subs)
    case Image(d, table, minCodeSize, subs) => [IMAGE] + d + table + ([minCodeSize] + RenderSubBlocks(subs))
    case Trailer => [TRAILER]
  }

  /** The number of sub-blocks, terminators included. */
  function SubParts(x: Block): nat {
    match x
    case Extension(_, _, subs) => |subs| + 1
    case Image(_, _, _, subs) => |subs| + 1
    case _ => 0
  }

  /** The extension whose label has been read. */
  function ExtensionAfter(b: seq<byte>, kind: byte, offset: nat): Option<Block> {
    if kind == GRAPHIC_CONTROL then
      if offset + 6 <= |b| && b[offset] == 4 && b[offset + 1] < 0x20 && b[offset + 5] == 0
      then Some(Control(b[offset + 1..offset + 5])) else None
    else
      var n := HeaderLength(kind);
      if n == 0 then
        match SubBlocksAt(b, offset)
        case None => None
        case Some(subs) => Some(Extension(kind, [], subs))
      else if offset >= |b| || b[offset] != n then None
      else
        match SubBlocksAt(b, offset + 1 + n)
        case None => None
        case Some(subs) => Some(Extension(kind, b[offset + 1..offset + 1 + n], subs))
  }

  /** The image whose separator has been read. */
  function ImageAfter(b: seq<byte>, offset: nat): Option<Block> {
    if offset + 9 > |b| || !DescriptorFine(b[offset..offset + 9]) then None
    else
      var d, table := b[offset..offset + 9], offset + 9;
      var data := table + TableBytes(d[8]);
      if data >= |b| || b[data] < 2 || b[data] > 8 then None
      else
        match SubBlocksAt(b, data + 1)
        case None => None
        case Some(subs) => if subs == [] then None else Some(Image(d, b[table..data], b[data], subs))
  }

  /** The block that starts at `offset`. */
  function BlockAt(b: seq<byte>, offset: nat): Option<Block> {
    if offset >= |b| then None
    else if b[offset] == TRAILER then Some(Trailer)
    else if b[offset] == EXTENSION then
      if offset + 1 >= |b| then None else ExtensionAfter(b, b[offset + 1], offset + 2)
    else if b[offset] == IMAGE then ImageAfter(b, offset + 1)
    else None
  }

  lemma HoldsOne(b: seq<byte>, offset: nat, x: byte)
    ensures Holds(b, offset, [x]) <==> offset < |b| && b[offset] == x
  {
    if offset < |b| {
      assert b[offset..offset + 1] == [b[offset]];
    }
  }

  lemma HoldsTwo(b: seq<byte>, offset: nat, x: byte, y: byte)
    ensures Holds(b, offset, [x, y]) <==> offset + 1 < |b| && b[offset] == x && b[offset + 1] == y
  {
    HoldsOne(b, offset, x);
    HoldsOne(b, offset + 1, y);
    HoldsParts(b, offset, [x], [y]);
    assert [x] + [y] == [x, y];
  }

  lemma ControlExactly(b: seq<byte>, offset: nat, fields: seq<byte>)
    requires |fields| == 4 && fields[0] < 0x20
    ensures ExtensionAfter(b, GRAPHIC_CONTROL, offset) == Some(Control(fields))
        <==> Holds(b, offset, [4] + fields + [0])
  {
    HoldsThree(b, offset, [4], fields, [0]);
    HoldsOne(b, offset, 4);
    HoldsOne(b, offset + 5, 0);
    if offset + 6 <= |b| {
      assert b[offset + 1..offset + 5][0] == b[offset + 1];
    }
  }

  lemma ExtensionExactly(b: seq<byte>, offset: nat, kind: byte, header: seq<byte>, subs: seq<SubBlock>)
    requires kind != GRAPHIC_CONTROL && |header| == HeaderLength(kind)
    ensures ExtensionAfter(b, kind, offset) == Some(Extension(kind, header, subs))
            <==> Holds(b, offset, RenderHeader(header) + RenderSubBlocks(subs))
  {
    var n := HeaderLength(kind);
    if n == 0 {
      assert RenderHeader(header) + RenderSubBlocks(subs) == RenderSubBlocks(subs);
      SubBlocksExactly(b, offset, subs);
    } else {
      HoldsThree(b, offset, [n], header, RenderSubBlocks(subs));
      HoldsOne(b, offset, n);
      SubBlocksExactly(b, offset + 1 + n, subs);
    }
  }

  lemma ImageExactly(b: seq<byte>, offset: nat, d: seq<byte>, table: seq<byte>, minCodeSize: byte, subs: seq<SubBlock>)
    requires Fine(Image(d, table, minCodeSize, subs))
    ensures ImageAfter(b, offset) == Some(Image(d, table, minCodeSize, subs))
            <==> Holds(b, offset, d + table + ([minCodeSize] + RenderSubBlocks(subs)))
  {
    var data := offset + 9 + |table|;
    HoldsThree(b, offset, d, table, [minCodeSize] + RenderSubBlocks(subs));
    HoldsParts(b, data, [minCodeSize], RenderSubBlocks(subs));
    HoldsOne(b, data, minCodeSize);
    SubBlocksExactly(b, data + 1, subs);
  }

  lemma BlockIsFine(b: seq<byte>, offset: nat)
    ensures BlockAt(b, offset).Some? ==> Fine(BlockAt(b, offset).value)
  {
  }

  lemma ControlBlockExactly(b: seq<byte>, offset: nat, fields: seq<byte>)
    requires |fields| == 4 && fields[0] < 0x20
    ensures BlockAt(b, offset) == Some(Control(fields)) <==> Holds(b, offset, Render(Control(fields)))
  {
    var head := [EXTENSION, GRAPHIC_CONTROL];
    Regroup(head, [4], fields, [0]);
    assert head + [4] == [EXTENSION, GRAPHIC_CONTROL, 4];
    HoldsParts(b, offset, head, [4] + fields + [0]);
    HoldsTwo(b, offset, EXTENSION, GRAPHIC_CONTROL);
    ControlExactly(b, offset + 2, fields);
  }

  lemma ExtensionBlockExactly(b: seq<byte>, offset: nat, kind: byte, header: seq<byte>, subs: seq<SubBlock>)
    requires kind != GRAPHIC_CONTROL && |header| == HeaderLength(kind)
    ensures BlockAt(b, offset) == Some(Extension(kind, header, subs))
        <==> Holds(b, offset, Render(Extension(kind, header, subs)))
  {
    Associate([EXTENSION, kind], RenderHeader(header), RenderSubBlocks(subs));
    HoldsParts(b, offset, [EXTENSION, kind], RenderHeader(header) + RenderSubBlocks(subs));
    HoldsTwo(b, offset, EXTENSION, kind);
    ExtensionExactly(b, offset + 2, kind, header, subs);
  }

  lemma ImageBlockExactly(b: seq<byte>, offset: nat, d: seq<byte>, table: seq<byte>, minCodeSize: byte,
                          subs: seq<SubBlock>)
    requires Fine(Image(d, table, minCodeSize, subs))
    ensures BlockAt(b, offset) == Some(Image(d, table, minCodeSize, subs))
            <==> Holds(b, offset, Render(Image(d, table, minCodeSize, subs)))
  {
    var data := [minCodeSize] + RenderSubBlocks(subs);
    Regroup([IMAGE], d, table, data);
    HoldsParts(b, offset, [IMAGE], d + table + data);
    HoldsOne(b, offset, IMAGE);
    ImageExactly(b, offset + 1, d, table, minCodeSize, subs);
  }

  /** Reading a block finds it exactly where it is rendered. */
  lemma BlockExactly(b: seq<byte>, offset: nat, x: Block)
    requires Fine(x)
    ensures BlockAt(b, offset) == Some(x) <==> Holds(b, offset, Render(x))
  {
    match x {
      case Control(fields) => ControlBlockExactly(b, offset, fields);
      case Extension(kind, header, subs) => ExtensionBlockExactly(b, offset, kind, header, subs);
      case Image(d, table, minCodeSize, subs) => ImageBlockExactly(b, offset, d, table, minCodeSize, subs);
      case Trailer => HoldsOne(b, offset, TRAILER);
    }
  }

  lemma Regroup(a: seq<byte>, p: seq<byte>, q: seq<byte>, r: seq<byte>)
    ensures a + (p + q + r) == a + p + q + r
  {
  }
}
