/** The PNG chunk scanner. */
module PngStructure {
  import opened Common
  import opened Images
  import opened PngChunks
  import opened PngLayout

  // The bytes of an attachment are accepted exactly if they are the signature followed by a well-formed chunk
  // list (sections 3.2 and 4.3 of RFC 2083, and the limits of the service); what is returned is the concatenated
  // image data and the scanline layout.  The checksum function is a parameter.

  const PNG_SIGNATURE: seq<byte> := [0x89, 0x50, 0x4e, 0x47, 0x0d, 0x0a, 0x1a, 0x0a]

  datatype Kind = IHDR | PLTE | IDAT | IEND | Ancillary | Unsupported

  datatype Header = Header(dimensions: Dimensions, bitDepth: byte, colorType: byte, interlaceMethod: byte)

  datatype ParsedPng = ParsedPng(dimensions: Dimensions, compressed: seq<byte>, layouts: seq<ScanlineLayout>)

  // ----- Chunk types -------------------------------------------------------------------------------------

  /** Text decoded as 7-bit ASCII: the highest bit of every byte is dropped. */
  function Ascii(b: seq<byte>): (t: seq<byte>)
    ensures |t| == |b| && forall i :: 0 <= i < |b| ==> t[i] == b[i] % 128
  {
    seq(|b|, i requires 0 <= i < |b| => b[i] % 128)
  }

  predicate IsLetter(b: byte) {
    65 <= b <= 90 || 97 <= b <= 122
  }

  /** Bit 5 of a byte: set in lower-case letters. */
  predicate Bit5(b: byte) {
    b / 32 % 2 == 1
  }

  const TEXT_IHDR: seq<byte> := [73, 72, 68, 82]
  const TEXT_PLTE: seq<byte> := [80, 76, 84, 69]
  const TEXT_IDAT: seq<byte> := [73, 68, 65, 84]
  const TEXT_IEND: seq<byte> := [73, 69, 78, 68]
  const ANIMATION: set<seq<byte>> := {[97, 99, 84, 76], [102, 99, 84, 76], [102, 100, 65, 84]}

  /** What a chunk is, from the bytes of its type and the text they are read as. */
  function KindFrom(kind: seq<byte>, text: seq<byte>): Kind
    requires |kind| == 4 && |text| == 4
  {
    if !(forall i :: 0 <= i < 4 ==> IsLetter(text[i])) || Bit5(kind[2]) then Unsupported
    else if text == TEXT_IHDR then IHDR
    else if text == TEXT_PLTE then PLTE
    else if text == TEXT_IDAT then IDAT
    else if text == TEXT_IEND then IEND
    else if text in ANIMATION || !Bit5(kind[0]) then Unsupported
    else Ancillary
  }

  function KindOf(kind: seq<byte>): Kind
    requires |kind| == 4
  {
    KindFrom(kind, Ascii(kind))
  }

  /**
   Chunk types are read without their highest bits.  A type is read as RFC 2083 writes it exactly when no
   such bit is set.
   */
  lemma ChunkTypeIsLiteralExactly(kind: seq<byte>)
    requires |kind| == 4
    ensures Ascii(kind) == kind <==> forall i :: 0 <= i < 4 ==> kind[i] < 128
  {
    if Ascii(kind) == kind {
      forall i | 0 <= i < 4 ensures kind[i] < 128 {
        assert Ascii(kind)[i] == kind[i];
      }
    }
  }

  /** The characters that the type is read as. */
  ghost predicate Spells(kind: seq<byte>, name: string) {
    |kind| == |name| == 4 && forall i :: 0 <= i < 4 ==> kind[i] % 128 == name[i] as int
  }

  predicate Small(b: byte) {
    'a' as int <= b % 128 <= 'z' as int
  }

  predicate Capital(b: byte) {
    'A' as int <= b % 128 <= 'Z' as int
  }

  /**
   The kinds by their names: the four that must be understood, those that need not be, unless they belong to an
   animation, and all others, which are not supported.
   */
  lemma KindsExactly(kind: seq<byte>)
    requires |kind| == 4
    ensures (KindOf(kind) == IHDR <==> Spells(kind, "IHDR")) && (KindOf(kind) == PLTE <==> Spells(kind, "PLTE"))
    ensures (KindOf(kind) == IDAT <==> Spells(kind, "IDAT")) && (KindOf(kind) == IEND <==> Spells(kind, "IEND"))
    ensures KindOf(kind) == Ancillary <==>
      && (forall i :: 0 <= i < 4 ==> Small(kind[i]) || Capital(kind[i])) && Small(kind[0]) && Capital(kind[2])
      && !Spells(kind, "acTL") && !Spells(kind, "fcTL") && !Spells(kind, "fdAT")
  {
    hide KindOf, KindFrom, Spells, Ascii, IsLetter, Bit5, Small, Capital;
    var t := Ascii(kind);
    SpellsExactly(kind, "IHDR", TEXT_IHDR);
    SpellsExactly(kind, "PLTE", TEXT_PLTE);
    SpellsExactly(kind, "IDAT", TEXT_IDAT);
    SpellsExactly(kind, "IEND", TEXT_IEND);
    SpellsExactly(kind, "acTL", [97, 99, 84, 76]);
    SpellsExactly(kind, "fcTL", [102, 99, 84, 76]);
    SpellsExactly(kind, "fdAT", [102, 100, 65, 84]);
    forall i | 0 <= i < 4
      ensures IsLetter(t[i]) <==> Small(kind[i]) || Capital(kind[i])
      ensures IsLetter(t[i]) ==> (Bit5(kind[i]) <==> Small(kind[i])) && (Small(kind[i]) <==> !Capital(kind[i]))
    {
      LetterCase(kind[i]);
    }
    KindOfIs(kind, t);
    KindFromExactly(kind, t);
    if t in {TEXT_IHDR, TEXT_PLTE, TEXT_IDAT, TEXT_IEND} {
      CapitalThird(kind, t);
    }
  }

  /** The four types that must be understood have a capital third letter. */
  lemma CapitalThird(kind: seq<byte>, t: seq<byte>)
    requires |kind| == 4 && t == Ascii(kind) && t in {TEXT_IHDR, TEXT_PLTE, TEXT_IDAT, TEXT_IEND}
    ensures (forall i :: 0 <= i < 4 ==> IsLetter(t[i])) && !Bit5(kind[2]) && !Bit5(kind[0])
  {
    LetterCase(kind[0]);
    LetterCase(kind[2]);
  }

  lemma KindFromExactly(kind: seq<byte>, t: seq<byte>)
    requires |kind| == |t| == 4
    ensures var k, named := KindFrom(kind, t), (forall i :: 0 <= i < 4 ==> IsLetter(t[i])) && !Bit5(kind[2]);
      && (k == IHDR <==> named && t == TEXT_IHDR) && (k == PLTE <==> named && t == TEXT_PLTE)
      && (k == IDAT <==> named && t == TEXT_IDAT) && (k == IEND <==> named && t == TEXT_IEND)
      && (k == Ancillary <==>
            named && t !in {TEXT_IHDR, TEXT_PLTE, TEXT_IDAT, TEXT_IEND} && t !in ANIMATION && Bit5(kind[0]))
  {
    hide IsLetter, Bit5;
    assert TEXT_IHDR[0] != TEXT_PLTE[0] && TEXT_IHDR[1] != TEXT_IDAT[1] && TEXT_IHDR[1] != TEXT_IEND[1];
    assert TEXT_IDAT[1] != TEXT_IEND[1] && TEXT_PLTE[0] != TEXT_IDAT[0];
  }

  lemma KindOfIs(kind: seq<byte>, t: seq<byte>)
    requires |kind| == 4 && t == Ascii(kind)
    ensures KindOf(kind) == KindFrom(kind, t)
  {
  }

  lemma LetterCase(b: byte)
    ensures IsLetter(b % 128) <==> Small(b) || Capital(b)
    ensures IsLetter(b % 128) ==> (Bit5(b) <==> Small(b)) && (Small(b) <==> !Capital(b))
  {
    assert b == 128 * (b / 128) + b % 128;
    assert b / 32 % 2 == (b % 128) / 32 % 2;
  }

  lemma SpellsExactly(kind: seq<byte>, name: string, text: seq<byte>)
    requires |kind| == |name| == |text| == 4 && forall i :: 0 <= i < 4 ==> text[i] == name[i] as int
    ensures Ascii(kind) == text <==> Spells(kind, name)
  {
    if Ascii(kind) == text {
      forall i | 0 <= i < 4 ensures kind[i] % 128 == name[i] as int {
        assert Ascii(kind)[i] == text[i];
      }
    }
  }

  // ----- Well-formed chunk lists ---------------------------------------------------------------------------

  predicate ValidColorFormat(bitDepth: byte, colorType: byte) {
    || (colorType == 0 && bitDepth in {1, 2, 4, 8, 16})
    || (colorType == 3 && bitDepth in {1, 2, 4, 8})
    || (colorType in {2, 4, 6} && bitDepth in {8, 16})
  }

  function ReadHeader(data: seq<byte>): Option<Header> {
    if |data| != 13 then None
    else
      var d := Dimensions(BE32(data[..4]), BE32(data[4..8]));
      if ValidDimensions(d) && ValidColorFormat(data[8], data[9]) && data[10] == 0 && data[11] == 0
          && data[12] in {0, 1}
      then Some(Header(d, data[8], data[9], data[12])) else None
  }

  function HeaderLayouts(h: Header): Option<seq<ScanlineLayout>> {
    PngScanlineLayouts(h.dimensions, h.bitDepth, h.colorType, h.interlaceMethod)
  }

  predicate PaletteFits(h: Header, length: nat) {
    && length > 0 && length % 3 == 0 && length <= 768
    && h.colorType !in {0, 4}
    && (h.colorType == 3 ==> length / 3 <= Pow2(h.bitDepth))
  }

  /** Color types with the bit depths that each may have (section 4.1.1). */
  const COLOR_FORMATS: set<(int, int)> :=
    {(0, 1), (0, 2), (0, 4), (0, 8), (0, 16), (2, 8), (2, 16), (3, 1), (3, 2), (3, 4), (3, 8), (4, 8), (4, 16),
     (6, 8), (6, 16)}

  /** A header as it is laid out, without compression or filter methods other than 0. */
  ghost predicate WritesHeader(data: seq<byte>, h: Header) {
    |data| == 13 &&
    var b: seq<int>, d := data, h.dimensions;
    && d.width == b[0] * 0x100_0000 + b[1] * 0x1_0000 + b[2] * 0x100 + b[3]
    && d.height == b[4] * 0x100_0000 + b[5] * 0x1_0000 + b[6] * 0x100 + b[7]
    && data[8..] == [h.bitDepth, h.colorType, 0, 0, h.interlaceMethod]
  }

  /** A header is read if it is laid out with a color format of the table and an image within the limits. */
  lemma HeadersExactly(data: seq<byte>, h: Header)
    ensures ReadHeader(data) == Some(h) <==>
      && WritesHeader(data, h) && (h.colorType, h.bitDepth) in COLOR_FORMATS && h.interlaceMethod in {0, 1}
      && 1 <= h.dimensions.width <= 16_384 && 1 <= h.dimensions.height <= 16_384
      && h.dimensions.width * h.dimensions.height <= 16_777_216
  {
    if |data| == 13 {
      assert data[..4] == [data[0], data[1], data[2], data[3]];
      assert data[4..8] == [data[4], data[5], data[6], data[7]];
      assert data[8..] == [data[8], data[9], data[10], data[11], data[12]];
      ColorFormatsExactly(data[8], data[9]);
      if WritesHeader(data, h) {
        assert data[8] == data[8..][0] == h.bitDepth && data[9] == data[8..][1] == h.colorType;
        assert data[10] == data[8..][2] && data[11] == data[8..][3] && data[12] == data[8..][4];
      }
    }
  }

  lemma ColorFormatsExactly(bitDepth: byte, colorType: byte)
    ensures ValidColorFormat(bitDepth, colorType) <==> (colorType, bitDepth) in COLOR_FORMATS
  {
  }

  /** The scanlines of the image, or of its seven passes, if they take up no more than 32 MiB. */
  lemma HeaderLayoutsExactly(h: Header, layouts: seq<ScanlineLayout>)
    requires (h.colorType, h.bitDepth) in COLOR_FORMATS && h.interlaceMethod in {0, 1}
    ensures HeaderLayouts(h) == Some(layouts) <==>
      && layouts == Layouts(if h.interlaceMethod == 1 then Adam7Passes(h.dimensions) else [h.dimensions],
                            CHANNELS[h.colorType as int] * h.bitDepth)
      && 1 <= DecodedBytes(layouts) <= 33_554_432
  {
  }

  /**
   A palette has one to 256 entries of three bytes, no more than the pixels can name, and none belongs to gray
   images.
   */
  lemma PalettesExactly(h: Header, length: nat)
    requires (h.colorType, h.bitDepth) in COLOR_FORMATS
    ensures PaletteFits(h, length) <==>
      && h.colorType in {2, 3, 6}
      && exists entries: nat :: length == 3 * entries && 1 <= entries <= 256
           && (h.colorType == 3 ==> entries <= Pow2(h.bitDepth))
  {
    if PaletteFits(h, length) {
      var entries := length / 3;
      assert length == 3 * entries;
    }
  }

  predicate ChunkFine(h: Header, c: Chunk, crc32: seq<byte> -> int)
  {
    && KindOf(c.kind) != Unsupported
    && crc32(c.kind + c.data) == BE32(c.crc)
    && (KindOf(c.kind) == PLTE ==> PaletteFits(h, |c.data|))
    && (KindOf(c.kind) == IEND ==> c.data == [])
  }

  function Kinds(chunks: seq<Chunk>): (ks: seq<Kind>)
    ensures |ks| == |chunks| && forall i :: 0 <= i < |ks| ==> ks[i] == KindOf(chunks[i].kind)
  {
    seq(|chunks|, i requires 0 <= i < |chunks| => KindOf(chunks[i].kind))
  }

  /**
   The order of chunks before the end marker: header first and once, palette once and before the data, data
   together.
   */
  ghost predicate Ordered(ks: seq<Kind>) {
    && (ks != [] ==> ks[0] == IHDR)
    && (forall i :: 0 < i < |ks| ==> ks[i] != IHDR)
    && (forall i :: 0 <= i < |ks| ==> ks[i] != IEND)
    && (forall i, j :: 0 <= i < j < |ks| && ks[j] == PLTE ==> ks[i] != PLTE && ks[i] != IDAT)
    && (forall i, j, k :: 0 <= i < j < k < |ks| && ks[i] == IDAT && ks[k] == IDAT ==> ks[j] == IDAT)
  }

  function Compressed(chunks: seq<Chunk>): seq<byte>
  {
    if chunks == [] then []
    else
      var last := chunks[|chunks| - 1];
      Compressed(chunks[..|chunks| - 1]) + (if KindOf(last.kind) == IDAT then last.data else [])
  }

  /** The end marker comes last, and there are image data. */
  ghost predicate WellOrdered(ks: seq<Kind>) {
    && |ks| >= 2
    && ks[|ks| - 1] == IEND
    && Ordered(ks[..|ks| - 1])
    && IDAT in ks
  }

  ghost predicate WellFormed(chunks: seq<Chunk>, crc32: seq<byte> -> int) {
    && 2 <= |chunks| <= MAX_STRUCTURE_PARTS
    && WellOrdered(Kinds(chunks))
    && ReadHeader(chunks[0].data).Some?
    && var h := ReadHeader(chunks[0].data).value;
       && (forall c :: c in chunks ==> ChunkFine(h, c, crc32))
       && (h.colorType == 3 ==> PLTE in Kinds(chunks))
       && Compressed(chunks) != []
       && HeaderLayouts(h).Some?
  }

  // ----- Types with high bits ------------------------------------------------------------------------------

  /** Every type is to RFC 2083, byte by byte, what the scanner takes it for. */
  ghost predicate LiteralTypes(chunks: seq<Chunk>) {
    forall c :: c in chunks ==> KindFrom(c.kind, c.kind) == KindOf(c.kind)
  }

  ghost predicate NoHighBits(chunks: seq<Chunk>) {
    forall c, i :: c in chunks && 0 <= i < 4 ==> c.kind[i] < 128
  }

  /** An accepted list obeys the types of RFC 2083 exactly if no byte of any type has its highest bit set. */
  lemma AcceptedIsLiteralExactly(chunks: seq<Chunk>, crc32: seq<byte> -> int)
    requires WellFormed(chunks, crc32)
    ensures LiteralTypes(chunks) <==> NoHighBits(chunks)
  {
    var h := ReadHeader(chunks[0].data).value;
    if LiteralTypes(chunks) {
      forall c, i | c in chunks && 0 <= i < 4 ensures c.kind[i] < 128 {
        assert ChunkFine(h, c, crc32);
        assert IsLetter(c.kind[i]);
      }
    }
    if NoHighBits(chunks) {
      forall c | c in chunks ensures KindFrom(c.kind, c.kind) == KindOf(c.kind) {
        ChunkTypeIsLiteralExactly(c.kind);
      }
    }
  }

  function Sealed(kind: seq<byte>, data: seq<byte>, crc32: seq<byte> -> int): Chunk
    requires |kind| == 4 && |data| < TWO_TO_THE_32 && 0 <= crc32(kind + data) < TWO_TO_THE_32
  {
    RawChunk(kind, data, Bytes32(crc32(kind + data)))
  }

  /** One gray pixel of eight bits; the first byte of the header's type has its highest bit set. */
  lemma HighBitsAreAccepted(crc32: seq<byte> -> int) returns (chunks: seq<Chunk>)
    requires forall b :: 0 <= crc32(b) < TWO_TO_THE_32
    ensures Encodes(PNG_SIGNATURE + RenderAll(chunks), chunks, crc32)
    ensures chunks[0].kind == [73 + 128, 72, 68, 82] && !LiteralTypes(chunks)
  {
    hide ReadHeader, WellFormed, Bytes32, BE32, KindOf, KindFrom, HeaderLayouts;
    MarkedKinds();
    var header := Sealed([73 + 128, 72, 68, 82], [0, 0, 0, 1, 0, 0, 0, 1, 8, 0, 0, 0, 0], crc32);
    var data, end := Sealed(TEXT_IDAT, [0], crc32), Sealed(TEXT_IEND, [], crc32);
    chunks := [header, data, end];
    OnePixel(header.data);
    ThreeAreWellFormed(header, data, end, crc32);
    assert header in chunks;
  }

  lemma MarkedKinds()
    ensures KindOf([73 + 128, 72, 68, 82]) == IHDR && KindOf(TEXT_IDAT) == IDAT && KindOf(TEXT_IEND) == IEND
    ensures KindFrom([73 + 128, 72, 68, 82], [73 + 128, 72, 68, 82]) == Unsupported
  {
    assert Ascii([73 + 128, 72, 68, 82]) == TEXT_IHDR && Ascii(TEXT_IDAT) == TEXT_IDAT && Ascii(TEXT_IEND) == TEXT_IEND;
    assert !IsLetter([73 + 128, 72, 68, 82][0]);
  }

  lemma ThreeAreWellFormed(header: Chunk, data: Chunk, end: Chunk, crc32: seq<byte> -> int)
    requires KindOf(header.kind) == IHDR && KindOf(data.kind) == IDAT && KindOf(end.kind) == IEND
    requires forall c :: c in [header, data, end] ==> crc32(c.kind + c.data) == BE32(c.crc)
    requires ReadHeader(header.data).Some? && ReadHeader(header.data).value.colorType == 0
    requires HeaderLayouts(ReadHeader(header.data).value).Some? && data.data != [] && end.data == []
    ensures WellFormed([header, data, end], crc32)
  {
    hide KindOf, ReadHeader, HeaderLayouts, BE32, PaletteFits;
    var kinds := [IHDR, IDAT, IEND];
    assert Kinds([header, data, end]) == kinds;
    assert kinds[..2] == [IHDR, IDAT];
    assert IDAT in kinds by {
      assert kinds[1] == IDAT;
    }
    OneDatum(header, data, end);
  }

  lemma OnePixel(data: seq<byte>)
    requires data == [0, 0, 0, 1, 0, 0, 0, 1, 8, 0, 0, 0, 0]
    ensures ReadHeader(data) == Some(Header(Dimensions(1, 1), 8, 0, 0)) && HeaderLayouts(ReadHeader(data).value).Some?
  {
    hide HeaderLayouts;
    assert data[..4] == [0, 0, 0, 1] == data[4..8];
    assert BE32([0, 0, 0, 1]) == 1;
    OnePixelFits(Header(Dimensions(1, 1), 8, 0, 0));
  }

  /** A filter byte and a pixel. */
  lemma OnePixelFits(h: Header)
    requires h == Header(Dimensions(1, 1), 8, 0, 0)
    ensures HeaderLayouts(h).Some?
  {
    var pixel := ScanlineLayout(1, 2);
    assert BitsPerPixel(8, 0) == 8 && RowLength(1, 8) == 2;
    assert Layouts([h.dimensions], 8) == [pixel];
    assert DecodedBytes([pixel]) == 2;
  }

  lemma OneDatum(header: Chunk, data: Chunk, end: Chunk)
    requires KindOf(header.kind) == IHDR && KindOf(data.kind) == IDAT && KindOf(end.kind) == IEND
    ensures Compressed([header, data, end]) == data.data
  {
    hide KindOf;
    CompressedAppend([], header);
    CompressedAppend([header], data);
    CompressedAppend([header, data], end);
    assert [header] + [data] == [header, data] && [header, data] + [end] == [header, data, end];
  }

  function Parsed(chunks: seq<Chunk>): ParsedPng
    requires chunks != []
    requires ReadHeader(chunks[0].data).Some?
    requires var h := ReadHeader(chunks[0].data).value;
             HeaderLayouts(h).Some?
  {
    var h := ReadHeader(chunks[0].data).value;
    ParsedPng(h.dimensions, Compressed(chunks),
              HeaderLayouts(h).value)
  }

  // ----- Scanning a chunk list -----------------------------------------------------------------------------

  datatype Scan = Scan(header: Option<Header>, sawPalette: bool, sawImageData: bool, closed: bool, imageData: seq<byte>)

  const START := Scan(None, false, false, false, [])

  /** What one chunk other than the end marker does to the scan. */
  function ScanChunk(s: Scan, c: Chunk, crc32: seq<byte> -> int): Option<Scan>
  {
    var kind := KindOf(c.kind);
    if kind in {Unsupported, IEND} || crc32(c.kind + c.data) != BE32(c.crc) || (s.header.None? && kind != IHDR)
        then None
    else
      var s' := if s.sawImageData && kind != IDAT then s.(closed := true) else s;
      match kind
      case IHDR =>
        if s.header.Some? || ReadHeader(c.data).None? then None else Some(s'.(header := ReadHeader(c.data)))
      case PLTE =>
        if s.sawPalette || s.sawImageData || !PaletteFits(s.header.value, |c.data|) then None
        else Some(s'.(sawPalette := true))
      case IDAT => if s'.closed then None else Some(s'.(sawImageData := true, imageData := s'.imageData + c.data))
      case _ => Some(s')
  }

  function ScanEnd(s: Scan, c: Chunk, crc32: seq<byte> -> int): Option<ParsedPng>
  {
    if crc32(c.kind + c.data) != BE32(c.crc) || s.header.None? || c.data != [] || !s.sawImageData
       || (s.header.value.colorType == 3 && !s.sawPalette) then None
    else
      var layouts := HeaderLayouts(s.header.value);
      if layouts.None? || s.imageData == [] then None
      else Some(ParsedPng(s.header.value.dimensions, s.imageData, layouts.value))
  }

  /** How the scanner treats the chunks it meets. */
  function Rules(crc32: seq<byte> -> int): Reader<Scan, ParsedPng> {
    Reader((s, c: Chunk) => ScanChunk(s, c, crc32), (s, c: Chunk) => ScanEnd(s, c, crc32),
           (c: Chunk) => KindOf(c.kind) == IEND)
  }

  ghost predicate Represents(s: Scan, chunks: seq<Chunk>, crc32: seq<byte> -> int) {
    && (chunks == [] <==> s.header.None?)
    && (chunks != [] ==> s.header == ReadHeader(chunks[0].data))
    && (chunks != [] ==> forall c :: c in chunks ==> ChunkFine(s.header.value, c, crc32))
    && var ks := Kinds(chunks);
       && Ordered(ks)
       && (s.sawPalette <==> PLTE in ks)
       && (s.sawImageData <==> IDAT in ks)
       && (s.closed <==> Closed(ks))
       && s.imageData == Compressed(chunks)
  }

  lemma CompressedAppend(chunks: seq<Chunk>, c: Chunk)
    ensures Compressed(chunks + [c]) == Compressed(chunks) + (if KindOf(c.kind) == IDAT then c.data else [])
    ensures Kinds(chunks + [c]) == Kinds(chunks) + [KindOf(c.kind)]
  {
    assert (chunks + [c])[..|chunks|] == chunks;
  }

  /** A chunk that fits extends what the scan represents. */
  lemma ScanChunkExtends(s: Scan, chunks: seq<Chunk>, c: Chunk, crc32: seq<byte> -> int)
    requires Represents(s, chunks, crc32) && ScanChunk(s, c, crc32).Some?
    ensures Represents(ScanChunk(s, c, crc32).value, chunks + [c], crc32)
  {
    hide KindOf, ReadHeader, PaletteFits, Ordered, Closed, Compressed, BE32;
    var s' := ScanChunk(s, c, crc32).value;
    var ks, kind := Kinds(chunks), KindOf(c.kind);
    CompressedAppend(chunks, c);
    OrderedAppend(ks, kind, s.sawPalette, s.sawImageData, s.closed);
    ClosedAppend(ks, kind);
    assert forall k :: k in ks + [kind] <==> k in ks || k == kind;
    HeaderAppend(s.header, s'.header, chunks, c);
    if chunks != [] {
      EndChunkFine(s'.header.value, chunks, c, crc32);
    } else {
      assert chunks + [c] == [c];
    }
  }

  lemma HeaderAppend(header: Option<Header>, header': Option<Header>, chunks: seq<Chunk>, c: Chunk)
    requires chunks != [] ==> header == ReadHeader(chunks[0].data) && header' == header
    requires chunks == [] ==> header' == ReadHeader(c.data)
    ensures header' == ReadHeader((chunks + [c])[0].data)
  {
    assert (chunks + [c])[0] == if chunks == [] then c else chunks[0];
  }

  ghost predicate Closed(ks: seq<Kind>) {
    exists i, j :: 0 <= i < j < |ks| && ks[i] == IDAT && ks[j] != IDAT
  }

  lemma ClosedAppend(ks: seq<Kind>, kind: Kind)
    ensures Closed(ks + [kind]) <==> Closed(ks) || (IDAT in ks && kind != IDAT)
  {
    var ks' := ks + [kind];
    if Closed(ks) {
      var i, j :| 0 <= i < j < |ks| && ks[i] == IDAT && ks[j] != IDAT;
      assert ks'[i] == IDAT && ks'[j] != IDAT;
    }
    if IDAT in ks && kind != IDAT {
      var i :| 0 <= i < |ks| && ks[i] == IDAT;
      assert ks'[i] == IDAT && ks'[|ks|] != IDAT;
    }
  }

  lemma OrderedAppend(ks: seq<Kind>, kind: Kind, sawPalette: bool, sawImageData: bool, closed: bool)
    requires Ordered(ks) && (sawPalette <==> PLTE in ks) && (sawImageData <==> IDAT in ks) && (closed <==> Closed(ks))
    ensures Ordered(ks + [kind]) <==>
            && kind != IEND
            && (ks == [] <==> kind == IHDR)
            && (kind == PLTE ==> !sawPalette && !sawImageData)
            && (kind == IDAT ==> !closed)
  {
    var ks' := ks + [kind];
    if Ordered(ks') {
      assert ks'[|ks|] == kind;
      assert forall i :: 0 <= i < |ks| ==> ks'[i] == ks[i];
    }
  }

  /** A chunk that does not fit cannot be followed by anything that makes the list well-formed. */
  lemma ScanChunkRejects(s: Scan, chunks: seq<Chunk>, c: Chunk, tail: seq<Chunk>, crc32: seq<byte> -> int)
    requires Represents(s, chunks, crc32) && KindOf(c.kind) != IEND && ScanChunk(s, c, crc32).None?
    ensures !WellFormed(chunks + [c] + tail, crc32)
  {
    var ks, kind := Kinds(chunks), KindOf(c.kind);
    OrderedAppend(ks, kind, s.sawPalette, s.sawImageData, s.closed);
    RejectedBecause(s, c, crc32);
    if Ordered(ks + [kind]) {
      LocalReject(s, chunks, c, tail, crc32);
    } else {
      KindsSplit(chunks, c, tail);
      OrderBeforeEnd(ks, kind, Kinds(tail));
      BadOrder(chunks + [c] + tail, crc32);
    }
  }

  lemma LocalReject(s: Scan, chunks: seq<Chunk>, c: Chunk, tail: seq<Chunk>, crc32: seq<byte> -> int)
    requires chunks == [] <==> s.header.None?
    requires chunks != [] ==> s.header == ReadHeader(chunks[0].data)
    requires var h := if s.header.Some? then s.header else ReadHeader(c.data); h.None? || !ChunkFine(h.value, c, crc32)
    ensures !WellFormed(chunks + [c] + tail, crc32)
  {
    var all := chunks + [c] + tail;
    assert all[0] == if chunks == [] then c else chunks[0];
    assert all[|chunks|] == c;
    BadChunk(all, |chunks|, crc32);
  }

  lemma KindsSplit(chunks: seq<Chunk>, c: Chunk, tail: seq<Chunk>)
    ensures Kinds(chunks + [c] + tail) == Kinds(chunks) + [KindOf(c.kind)] + Kinds(tail)
  {
  }

  lemma BadOrder(all: seq<Chunk>, crc32: seq<byte> -> int)
    requires !WellOrdered(Kinds(all))
    ensures !WellFormed(all, crc32)
  {
  }

  lemma BadChunk(all: seq<Chunk>, n: nat, crc32: seq<byte> -> int)
    requires n < |all|
    requires var h := ReadHeader(all[0].data); h.None? || !ChunkFine(h.value, all[n], crc32)
    ensures !WellFormed(all, crc32)
  {
    assert all[n] in all;
  }

  /** Why the scan refuses a chunk: it is bad in itself, or comes at the wrong place. */
  lemma RejectedBecause(s: Scan, c: Chunk, crc32: seq<byte> -> int)
    requires KindOf(c.kind) != IEND && ScanChunk(s, c, crc32).None?
    ensures var kind := KindOf(c.kind);
            || kind == Unsupported || crc32(c.kind + c.data) != BE32(c.crc)
            || (s.header.None? <==> kind != IHDR)
            || (s.header.None? && kind == IHDR && ReadHeader(c.data).None?)
            || (kind == PLTE && (s.sawPalette || s.sawImageData))
            || (kind == PLTE && s.header.Some? && !PaletteFits(s.header.value, |c.data|))
            || (kind == IDAT && s.closed)
  {
  }

  /** Up to any chunk that is not the end marker, a well-ordered list is ordered. */
  lemma OrderBeforeEnd(ks: seq<Kind>, kind: Kind, tail: seq<Kind>)
    requires kind != IEND
    ensures WellOrdered(ks + [kind] + tail) ==> Ordered(ks + [kind])
  {
    var all := ks + [kind] + tail;
    if tail != [] {
      OrderedPrefix(ks + [kind], tail[..|tail| - 1]);
      assert all[..|all| - 1] == ks + [kind] + tail[..|tail| - 1];
    }
  }

  lemma OrderedPrefix(a: seq<Kind>, b: seq<Kind>)
    ensures Ordered(a + b) ==> Ordered(a)
  {
    assert forall i :: 0 <= i < |a| ==> (a + b)[i] == a[i];
  }

  /** Nothing follows the end marker. */
  lemma EndIsLast(ks: seq<Kind>, tail: seq<Kind>)
    requires tail != []
    ensures !WellOrdered(ks + [IEND] + tail)
  {
    var all := ks + [IEND] + tail;
    assert all[..|all| - 1][|ks|] == IEND;
  }

  lemma WellOrderedEnd(ks: seq<Kind>)
    ensures WellOrdered(ks + [IEND]) <==> Ordered(ks) && IDAT in ks
  {
    var all := ks + [IEND];
    assert all[..|all| - 1] == ks;
    assert forall k :: k in all <==> k in ks || k == IEND;
  }

  ghost function Verdict(chunks: seq<Chunk>, crc32: seq<byte> -> int): Option<ParsedPng> {
    if WellFormed(chunks, crc32) then Some(Parsed(chunks)) else None
  }

  lemma ScanEndDecides(s: Scan, chunks: seq<Chunk>, c: Chunk, crc32: seq<byte> -> int)
    requires Represents(s, chunks, crc32) && KindOf(c.kind) == IEND && |chunks| < MAX_STRUCTURE_PARTS
    ensures ScanEnd(s, c, crc32) == Verdict(chunks + [c], crc32)
  {
    if chunks != [] {
      EndAccepts(s, chunks, c, crc32);
      if WellFormed(chunks + [c], crc32) {
        EndResult(s, chunks, c, crc32);
      }
    }
  }

  lemma EndAccepts(s: Scan, chunks: seq<Chunk>, c: Chunk, crc32: seq<byte> -> int)
    requires Represents(s, chunks, crc32) && KindOf(c.kind) == IEND && 0 < |chunks| < MAX_STRUCTURE_PARTS
    ensures WellFormed(chunks + [c], crc32) <==> ScanEnd(s, c, crc32).Some?
  {
    hide KindOf, ReadHeader, PaletteFits, Ordered, Closed, Compressed, BE32, HeaderLayouts;
    var all := chunks + [c];
    var ks := Kinds(chunks);
    CompressedAppend(chunks, c);
    WellOrderedEnd(ks);
    assert PLTE in ks + [IEND] <==> PLTE in ks;
    var h := s.header.value;
    assert all[0] == chunks[0] && ReadHeader(all[0].data) == Some(h);
    EndChunkFine(h, chunks, c, crc32);
    var fine := ChunkFine(h, c, crc32) && IDAT in ks && (h.colorType == 3 ==> PLTE in ks)
                && Compressed(chunks) != [] && HeaderLayouts(h).Some?;
    assert WellFormed(all, crc32) <==> fine;
    assert ScanEnd(s, c, crc32).Some? <==> fine;
  }

  lemma EndResult(s: Scan, chunks: seq<Chunk>, c: Chunk, crc32: seq<byte> -> int)
    requires Represents(s, chunks, crc32) && KindOf(c.kind) == IEND && chunks != []
    requires ScanEnd(s, c, crc32).Some? && WellFormed(chunks + [c], crc32)
    ensures ScanEnd(s, c, crc32) == Some(Parsed(chunks + [c]))
  {
    CompressedAppend(chunks, c);
    assert Compressed(chunks + [c]) == s.imageData;
    assert (chunks + [c])[0] == chunks[0];
  }

  lemma EndChunkFine(h: Header, chunks: seq<Chunk>, c: Chunk, crc32: seq<byte> -> int)
    requires forall x :: x in chunks ==> ChunkFine(h, x, crc32)
    ensures (forall x :: x in chunks + [c] ==> ChunkFine(h, x, crc32)) <==> ChunkFine(h, c, crc32)
  {
    assert (chunks + [c])[|chunks|] == c;
    assert c in chunks + [c];
  }

  /** The scan of a chunk list ends in a result exactly if the list is well-formed, and that result is what it says. */
  lemma {:induction false} ScanDecides(s: Scan, chunks: seq<Chunk>, tail: seq<Chunk>, crc32: seq<byte> -> int)
    requires Represents(s, chunks, crc32)
    ensures ScanChunks(Rules(crc32), s, tail, |chunks|) == Verdict(chunks + tail, crc32)
    decreases |tail|
  {
    if tail == [] {
      assert chunks + tail == chunks;
      assert chunks != [] ==> Kinds(chunks)[|chunks| - 1] != IEND;
    } else if |chunks| < MAX_STRUCTURE_PARTS {
      var c, rest := tail[0], tail[1..];
      assert chunks + tail == chunks + [c] + rest;
      if KindOf(c.kind) == IEND {
        EndDecides(s, chunks, c, rest, crc32);
      } else if ScanChunk(s, c, crc32).None? {
        ScanChunkRejects(s, chunks, c, rest, crc32);
      } else {
        ScanChunkExtends(s, chunks, c, crc32);
        ScanDecides(ScanChunk(s, c, crc32).value, chunks + [c], rest, crc32);
      }
    }
  }

  lemma EndDecides(s: Scan, chunks: seq<Chunk>, c: Chunk, rest: seq<Chunk>, crc32: seq<byte> -> int)
    requires Represents(s, chunks, crc32) && KindOf(c.kind) == IEND && |chunks| < MAX_STRUCTURE_PARTS
    ensures Verdict(chunks + [c] + rest, crc32) == if rest == [] then ScanEnd(s, c, crc32) else None
  {
    if rest == [] {
      assert chunks + [c] + rest == chunks + [c];
      ScanEndDecides(s, chunks, c, crc32);
    } else {
      KindsSplit(chunks, c, rest);
      EndIsLast(Kinds(chunks), Kinds(rest));
      BadOrder(chunks + [c] + rest, crc32);
    }
  }

  // ----- Scanning bytes --------------------------------------------------------------------------------------

  /** The bytes encode a well-formed chunk list. */
  ghost predicate Encodes(bytes: seq<byte>, chunks: seq<Chunk>, crc32: seq<byte> -> int) {
    bytes == PNG_SIGNATURE + RenderAll(chunks) && WellFormed(chunks, crc32)
  }

  lemma EncodingIsUnique(bytes: seq<byte>, a: seq<Chunk>, b: seq<Chunk>)
    requires bytes == PNG_SIGNATURE + RenderAll(a) && bytes == PNG_SIGNATURE + RenderAll(b)
    ensures a == b
  {
    assert bytes[8..] == RenderAll(a) && bytes[8..] == RenderAll(b);
    SplitRendered(a);
    SplitRendered(b);
  }

  lemma ScanBytesIsVerdict(b: seq<byte>, crc32: seq<byte> -> int)
    ensures ScanBytes(Rules(crc32), START, b, 0) == if Split(b).Some? then Verdict(Split(b).value, crc32) else None
  {
    if Split(b).Some? {
      var chunks := Split(b).value;
      assert Represents(START, [], crc32);
      ScanDecides(START, [], chunks, crc32);
      assert [] + chunks == chunks;
    }
  }

  /** The scanner's verdict in terms of the grammar, in both directions. */
  lemma ScanBytesDecides(bytes: seq<byte>, crc32: seq<byte> -> int)
    requires PNG_SIGNATURE <= bytes
    ensures var r := ScanBytes(Rules(crc32), START, bytes[8..], 0);
            && (forall chunks :: Encodes(bytes, chunks, crc32) ==> r == Some(Parsed(chunks)))
            && (r.Some? ==> exists chunks :: Encodes(bytes, chunks, crc32))
  {
    var b := bytes[8..];
    assert bytes == PNG_SIGNATURE + b;
    ScanBytesIsVerdict(b, crc32);
    forall chunks | Encodes(bytes, chunks, crc32) ensures Split(b) == Some(chunks) {
      assert b == RenderAll(chunks);
      SplitRendered(chunks);
    }
    if Split(b).Some? && WellFormed(Split(b).value, crc32) {
      RenderSplit(b);
      assert Encodes(bytes, Split(b).value, crc32);
    }
  }

  lemma {:induction false} RenderedLength(chunks: seq<Chunk>)
    ensures |RenderAll(chunks)| >= 12 * |chunks| + (if chunks != [] then |chunks[0].data| else 0)
  {
    if chunks != [] {
      RenderedLength(chunks[1..]);
    }
  }

  /** Signature, header, one data chunk and end marker: nothing shorter is a PNG file. */
  lemma EncodedIsLong(bytes: seq<byte>, chunks: seq<Chunk>, crc32: seq<byte> -> int)
    requires Encodes(bytes, chunks, crc32)
    ensures |bytes| >= 57
  {
    ThreeChunks(chunks, crc32);
    RenderedLength(chunks);
  }

  lemma ThreeChunks(chunks: seq<Chunk>, crc32: seq<byte> -> int)
    requires WellFormed(chunks, crc32)
    ensures |chunks| >= 3 && |chunks[0].data| >= 13
  {
    ThreeKinds(Kinds(chunks));
  }

  lemma ThreeKinds(ks: seq<Kind>)
    requires WellOrdered(ks)
    ensures |ks| >= 3
  {
    assert ks[..|ks| - 1][0] == ks[0] == IHDR;
    var i :| 0 <= i < |ks| && ks[i] == IDAT;
  }

  /**
   The scanner: a result is returned exactly if the bytes encode a well-formed chunk list, and it is the
   one that the list determines.  Every read is inside the bytes.
   */
  method ReadPng(bytes: seq<byte>, crc32: seq<byte> -> int) returns (r: Option<ParsedPng>)
    ensures forall chunks :: Encodes(bytes, chunks, crc32) ==> r == Some(Parsed(chunks))
    ensures r.Some? ==> exists chunks :: Encodes(bytes, chunks, crc32)
  {
    if |bytes| < 57 || bytes[..8] != PNG_SIGNATURE {
      forall chunks | Encodes(bytes, chunks, crc32) ensures false {
        EncodedIsLong(bytes, chunks, crc32);
      }
      return None;
    }
    ScanBytesDecides(bytes, crc32);
    r := ReadChunks(bytes, 8, Rules(crc32), START);
  }

  /** Rendering a well-formed chunk list and scanning it gives the list's image data and layout back. */
  method RenderAndRead(chunks: seq<Chunk>, crc32: seq<byte> -> int) returns (r: Option<ParsedPng>)
    requires WellFormed(chunks, crc32)
    ensures r == Some(Parsed(chunks))
  {
    var bytes := PNG_SIGNATURE + RenderAll(chunks);
    assert Encodes(bytes, chunks, crc32);
    r := ReadPng(bytes, crc32);
  }
}
