/**
 PNG files as streams of chunks: how chunks are written as bytes (section 3.2 of RFC 2083), how bytes
 split into chunks, and the loop that walks over them.  What the chunks mean is left to a `Reader`.
 */
module PngChunks {
  import opened Common
  import opened Images

  const MAX_STRUCTURE_PARTS := 100_000
  const TWO_TO_THE_32 := 0x1_0000_0000

  datatype RawChunk = RawChunk(kind: seq<byte>, data: seq<byte>, crc: seq<byte>)

  type Chunk = c: RawChunk | |c.kind| == 4 && |c.crc| == 4 && |c.data| < TWO_TO_THE_32
    witness RawChunk([65, 65, 65, 65], [], [0, 0, 0, 0])

  // ----- Chunks as bytes ---------------------------------------------------------------------------------

  function Join(high: int, low: byte): int {
    high * 0x100 + low
  }

  function BE32(b: seq<byte>): (n: int)
    requires |b| == 4
    ensures 0 <= n < TWO_TO_THE_32
  {
    Join(Join(Join(b[0], b[1]), b[2]), b[3])
  }

  function Bytes32(n: int): (b: seq<byte>)
    requires 0 <= n < TWO_TO_THE_32
    ensures |b| == 4 && BE32(b) == n
  {
    var n1 := n / 0x100;
    var n2 := n1 / 0x100;
    [n2 / 0x100, n2 % 0x100, n1 % 0x100, n % 0x100]
  }

  lemma JoinInjective(high: int, low: byte, high': int, low': byte)
    requires Join(high, low) == Join(high', low')
    ensures high == high' && low == low'
  {
  }

  lemma BE32Injective(a: seq<byte>, b: seq<byte>)
    requires |a| == 4 && |b| == 4 && BE32(a) == BE32(b)
    ensures a == b
  {
    var a1, b1 := Join(a[0], a[1]), Join(b[0], b[1]);
    var a2, b2 := Join(a1, a[2]), Join(b1, b[2]);
    JoinInjective(a2, a[3], b2, b[3]);
    JoinInjective(a1, a[2], b1, b[2]);
    JoinInjective(a[0], a[1], b[0], b[1]);
    assert a == [a[0], a[1], a[2], a[3]] && b == [b[0], b[1], b[2], b[3]];
  }

  /** Length, type, data and checksum (section 3.2). */
  function Render(c: Chunk): (b: seq<byte>)
    ensures |b| == 12 + |c.data|
  {
    Bytes32(|c.data|) + c.kind + c.data + c.crc
  }

  function RenderAll(chunks: seq<Chunk>): seq<byte>
  {
    if chunks == [] then [] else Render(chunks[0]) + RenderAll(chunks[1..])
  }

  /** The chunk at the start of `b`, if `b` is long enough to hold it. */
  function FirstChunk(b: seq<byte>): (c: Option<Chunk>)
    ensures c.Some? ==> 12 + |c.value.data| <= |b|
  {
    if |b| < 12 then None
    else
      var n := BE32(b[..4]);
      if n > |b| - 12 then None else Some(RawChunk(b[4..8], b[8..8 + n], b[8 + n..12 + n]))
  }

  lemma FirstChunkRenders(b: seq<byte>)
    requires FirstChunk(b).Some?
    ensures var c := FirstChunk(b).value; b == Render(c) + b[12 + |c.data|..]
  {
    var c := FirstChunk(b).value;
    var n := |c.data|;
    BE32Injective(Bytes32(n), b[..4]);
    SliceJoin(b, 4, 8);
    SliceJoin(b, 8, 8 + n);
    SliceJoin(b, 8 + n, 12 + n);
    SliceJoin(b, 12 + n, |b|);
  }

  lemma SliceJoin<T>(b: seq<T>, i: nat, j: nat)
    requires i <= j <= |b|
    ensures b[..i] + b[i..j] == b[..j] && b[..|b|] == b && b[i..|b|] == b[i..]
  {
  }

  lemma RenderedChunkIsFirst(c: Chunk, rest: seq<byte>)
    ensures FirstChunk(Render(c) + rest) == Some(c) && (Render(c) + rest)[12 + |c.data|..] == rest
  {
    var b, n := Render(c) + rest, |c.data|;
    assert b[..4] == Bytes32(n);
    assert b[4..8] == c.kind;
    assert b[8..8 + n] == c.data;
    assert b[8 + n..12 + n] == c.crc;
  }

  /** The chunk list that `b` consists of, if it consists of chunks. */
  function Split(b: seq<byte>): (r: Option<seq<Chunk>>)
    decreases |b|
  {
    if b == [] then Some([])
    else
      match FirstChunk(b)
      case None => None
      case Some(c) =>
        match Split(b[12 + |c.data|..])
        case None => None
        case Some(tail) => Some([c] + tail)
  }

  lemma {:induction false} SplitRendered(chunks: seq<Chunk>)
    ensures Split(RenderAll(chunks)) == Some(chunks)
  {
    if chunks != [] {
      RenderedChunkIsFirst(chunks[0], RenderAll(chunks[1..]));
      SplitRendered(chunks[1..]);
      assert chunks == [chunks[0]] + chunks[1..];
      assert RenderAll(chunks) == Render(chunks[0]) + RenderAll(chunks[1..]);
    }
  }

  lemma {:induction false} RenderSplit(b: seq<byte>)
    requires Split(b).Some?
    ensures RenderAll(Split(b).value) == b
    decreases |b|
  {
    if b != [] {
      FirstChunkRenders(b);
      RenderSplit(b[12 + |FirstChunk(b).value.data|..]);
    }
  }

  // ----- Reading a stream of chunks ------------------------------------------------------------------

  /** What to do with a chunk: `take` it and go on, or, if `isEnd`, `finish` with a result. */
  datatype Reader<!S, !R> = Reader(take: (S, Chunk) -> Option<S>, finish: (S, Chunk) -> Option<R>, isEnd: Chunk -> bool)

  /** The verdict on the chunks that follow `parts` others: the end chunk must be the last. */
  function ScanChunks<S, R>(rules: Reader<S, R>, s: S, chunks: seq<Chunk>, parts: nat): Option<R>
    decreases |chunks|
  {
    if chunks == [] || parts >= MAX_STRUCTURE_PARTS then None
    else if rules.isEnd(chunks[0]) then
      if |chunks| == 1 then rules.finish(s, chunks[0]) else None
    else
      match rules.take(s, chunks[0])
      case None => None
      case Some(s') => ScanChunks(rules, s', chunks[1..], parts + 1)
  }

  /** The verdict on the bytes that follow `parts` chunks. */
  function ScanBytes<S, R>(rules: Reader<S, R>, s: S, b: seq<byte>, parts: nat): Option<R> {
    match Split(b)
    case None => None
    case Some(chunks) => ScanChunks(rules, s, chunks, parts)
  }

  /** One turn of the loop. */
  lemma ScanBytesStep<S, R>(rules: Reader<S, R>, s: S, b: seq<byte>, parts: nat)
    requires b != [] && parts < MAX_STRUCTURE_PARTS
    ensures var r := ScanBytes(rules, s, b, parts);
            match FirstChunk(b)
            case None => r == None
            case Some(c) =>
              if rules.isEnd(c) then r == if |b| == 12 + |c.data| then rules.finish(s, c) else None
              else
                match rules.take(s, c)
                case None => r == None
                case Some(s') => r == ScanBytes(rules, s', b[12 + |c.data|..], parts + 1)
  {
    if FirstChunk(b).Some? {
      var c := FirstChunk(b).value;
      var rest := b[12 + |c.data|..];
      if Split(rest).Some? {
        var tail := Split(rest).value;
        assert ([c] + tail)[1..] == tail;
        assert rest == [] <==> tail == [];
      }
    }
  }

  lemma SliceOfSlice<T>(b: seq<T>, offset: nat, i: nat, j: nat)
    requires offset + j <= |b| && i <= j
    ensures b[offset..][i..j] == b[offset + i..offset + j]
    ensures b[offset..][j..] == b[offset + j..]
  {
  }

  /** The chunk at `offset`, if all of it is there. */
  method ReadChunk(bytes: seq<byte>, offset: nat) returns (c: Option<Chunk>)
    requires offset <= |bytes|
    ensures c == FirstChunk(bytes[offset..])
  {
    if |bytes| - offset < 12 {
      return None;
    }
    SliceOfSlice(bytes, offset, 0, 4);
    var chunkLength := BE32(bytes[offset..offset + 4]);
    var typeStart, dataStart := offset + 4, offset + 8;
    if chunkLength > |bytes| - dataStart - 4 {
      return None;
    }
    var dataEnd := dataStart + chunkLength;
    SliceOfSlice(bytes, offset, 4, 8);
    SliceOfSlice(bytes, offset, 8, 8 + chunkLength);
    SliceOfSlice(bytes, offset, 8 + chunkLength, 12 + chunkLength);
    c := Some(RawChunk(bytes[typeStart..dataStart], bytes[dataStart..dataEnd], bytes[dataEnd..dataEnd + 4]));
  }

  /** The loop over the chunks that start at `start`. */
  method ReadChunks<S, R>(bytes: seq<byte>, start: nat, rules: Reader<S, R>, initial: S) returns (r: Option<R>)
    requires start <= |bytes|
    ensures r == ScanBytes(rules, initial, bytes[start..], 0)
  {
    var offset, scan, partCount := start, initial, 0;
    while offset < |bytes| && partCount < MAX_STRUCTURE_PARTS
      invariant start <= offset <= |bytes| && 0 <= partCount <= MAX_STRUCTURE_PARTS
      invariant ScanBytes(rules, initial, bytes[start..], 0) == ScanBytes(rules, scan, bytes[offset..], partCount)
    {
      ScanBytesStep(rules, scan, bytes[offset..], partCount);
      partCount := partCount + 1;
      var chunk := ReadChunk(bytes, offset);
      if chunk.None? {
        return None;
      }
      var chunkEnd := offset + 12 + |chunk.value.data|;
      if rules.isEnd(chunk.value) {
        return if chunkEnd == |bytes| then rules.finish(scan, chunk.value) else None;
      }
      var next := rules.take(scan, chunk.value);
      if next.None? {
        return None;
      }
      SliceOfSlice(bytes, offset, 0, 12 + |chunk.value.data|);
      scan, offset := next.value, chunkEnd;
    }
    r := None;
  }
}
