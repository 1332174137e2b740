// PNG chunks, and the pHYs chunk frontend/src/lib/chartExport.ts inserts after the header.
module Png {
  import opened Wrappers
  import opened Bytes
  import opened Crc

  datatype RangeError = OffsetOutOfBounds

  // ----- the file format, as RFC 2083 defines it -----

  datatype Chunk = Chunk(kind: seq<byte>, data: seq<byte>)

  const SIGNATURE: seq<byte> := [137, 80, 78, 71, 13, 10, 26, 10]

  // "pHYs"
  const PHYS_KIND: seq<byte> := [112, 72, 89, 115]

  // Section 3.2: length, type, data, and the CRC of type and data.
  function ChunkBytes(c: Chunk): (r: seq<byte>)
    ensures |r| == 8 + |c.kind| + |c.data|
  {
    BE32(|c.data|) + c.kind + c.data + BE32(CrcValue(c.kind + c.data))
  }

  // The first chunk of bytes, when it is complete and its CRC is right.
  function ParseChunk(bytes: seq<byte>): (r: Option<Chunk>)
    ensures r.Some? ==> |r.value.kind| == 4 && 12 + |r.value.data| <= |bytes|
  {
    if |bytes| < 12 then None
    else
      var length := ReadBE32(bytes[..4]);
      if 12 + length > |bytes| then None
      else
        var c := Chunk(bytes[4..8], bytes[8..8 + length]);
        if ReadBE32(bytes[8 + length..12 + length]) != CrcValue(c.kind + c.data) then None else Some(c)
  }

  function ParseChunks(bytes: seq<byte>): Option<seq<Chunk>>
    decreases |bytes|
  {
    if bytes == [] then Some([])
    else
      var first := ParseChunk(bytes);
      if first.None? then None
      else
        var rest := ParseChunks(bytes[12 + |first.value.data|..]);
        if rest.None? then None else Some([first.value] + rest.value)
  }

  function ParsePng(bytes: seq<byte>): Option<seq<Chunk>> {
    if |bytes| < 8 || bytes[..8] != SIGNATURE then None else ParseChunks(bytes[8..])
  }

  // ----- reading what was written -----

  lemma CrcFits(bytes: seq<byte>)
    ensures CrcValue(bytes) < 0x1_0000_0000
  {
    ValueBound(CrcWord(bytes));
    assert Power2(8) == 256;
    PowerAdd(8, 8);
    PowerAdd(16, 16);
  }

  lemma {:induction false} PowerAdd(m: nat, n: nat)
    ensures Power2(m + n) == Power2(m) * Power2(n)
    decreases m
  {
    if m > 0 {
      PowerAdd(m - 1, n);
    }
  }

  lemma Fields(a: seq<byte>, b: seq<byte>, c: seq<byte>, d: seq<byte>, tail: seq<byte>)
    requires |a| == 4 && |b| == 4 && |d| == 4
    ensures var bytes := a + b + c + d + tail;
      && bytes[..4] == a && bytes[4..8] == b
      && bytes[8..8 + |c|] == c && bytes[8 + |c|..12 + |c|] == d && bytes[12 + |c|..] == tail
  {
    var bytes := a + b + c + d + tail;
    assert bytes[..8] == a + b;
    assert bytes[..4] == bytes[..8][..4] && bytes[4..8] == bytes[..8][4..];
    assert bytes[8..] == c + (d + tail);
    assert bytes[8..8 + |c|] == bytes[8..][..|c|];
    assert bytes[8 + |c|..] == d + tail;
    assert bytes[8 + |c|..12 + |c|] == bytes[8 + |c|..][..4];
    assert bytes[12 + |c|..] == bytes[8 + |c|..][4..];
  }

  lemma ParsedAs(bytes: seq<byte>, c: Chunk)
    requires |c.kind| == 4 && |bytes| >= 12 + |c.data|
    requires ReadBE32(bytes[..4]) == |c.data|
    requires bytes[4..8] == c.kind && bytes[8..8 + |c.data|] == c.data
    requires ReadBE32(bytes[8 + |c.data|..12 + |c.data|]) == CrcValue(c.kind + c.data)
    ensures ParseChunk(bytes) == Some(c)
  {
    assert Chunk(bytes[4..8], bytes[8..8 + ReadBE32(bytes[..4])]) == c;
  }

  lemma WrittenNumbers(length: nat, message: seq<byte>)
    requires length < 0x1_0000_0000
    ensures ReadBE32(BE32(length)) == length && ReadBE32(BE32(CrcValue(message))) == CrcValue(message)
  {
    ReadBackBE32(length);
    ReadBackBE32(CrcValue(message));
    CrcFits(message);
  }

  /** Whatever follows it, a chunk that was written is read back with its CRC accepted. */
  lemma ChunkReadsBack(c: Chunk, tail: seq<byte>)
    requires |c.kind| == 4 && |c.data| < 0x1_0000_0000
    ensures ParseChunk(ChunkBytes(c) + tail) == Some(c)
    ensures (ChunkBytes(c) + tail)[12 + |c.data|..] == tail
  {
    WrittenNumbers(|c.data|, c.kind + c.data);
    var length, crc := BE32(|c.data|), BE32(CrcValue(c.kind + c.data));
    Fields(length, c.kind, c.data, crc, tail);
    ParsedAs(length + c.kind + c.data + crc + tail, c);
  }

  lemma ChunksReadBackBE32(c: Chunk, tail: seq<byte>)
    requires |c.kind| == 4 && |c.data| < 0x1_0000_0000 && ParseChunks(tail).Some?
    ensures ParseChunks(ChunkBytes(c) + tail) == Some([c] + ParseChunks(tail).value)
  {
    ChunkReadsBack(c, tail);
  }

  // A chunk is read from its own bytes only.
  lemma {:induction false} ChunkIsLocal(bytes: seq<byte>, n: nat, tail: seq<byte>)
    requires ParseChunk(bytes).Some? && n == 12 + |ParseChunk(bytes).value.data|
    ensures ParseChunk(bytes[..n] + tail) == ParseChunk(bytes)
  {
    var other := bytes[..n] + tail;
    var length := n - 12;
    assert other[..4] == bytes[..4];
    assert other[4..8] == bytes[4..8];
    assert other[8..8 + length] == bytes[8..8 + length];
    assert other[8 + length..12 + length] == bytes[8 + length..12 + length];
  }

  // ----- the pHYs chunk -----

  // The density in whole pixels per metre, in both directions; unit 1 is the metre.
  function PixelsPerMeter(dpi: real): int { Round(dpi / 0.0254) }

  function PhysChunk(dpi: real): Chunk {
    Chunk(PHYS_KIND, BE32(PixelsPerMeter(dpi)) + BE32(PixelsPerMeter(dpi)) + [1])
  }

  // The signature, and a header chunk of 13 bytes of data.
  const INSERTION: nat := 33

  function Injected(bytes: seq<byte>, dpi: real): seq<byte>
    requires |bytes| >= INSERTION
  {
    bytes[..INSERTION] + ChunkBytes(PhysChunk(dpi)) + bytes[INSERTION..]
  }

  lemma InsertedParses(body: seq<byte>, header: Chunk, rest: seq<Chunk>, c: Chunk)
    requires |body| >= 25 && ParseChunk(body) == Some(header) && |header.data| == 13
    requires ParseChunks(body[25..]) == Some(rest)
    requires |c.kind| == 4 && |c.data| < 0x1_0000_0000
    ensures ParseChunks(body[..25] + (ChunkBytes(c) + body[25..])) == Some([header] + ([c] + rest))
  {
    ChunksReadBackBE32(c, body[25..]);
    var middle := ChunkBytes(c) + body[25..];
    ChunkIsLocal(body, 25, middle);
    assert (body[..25] + middle)[25..] == middle;
  }

  lemma {:induction false} FirstAndRest(body: seq<byte>) returns (first: Chunk, rest: seq<Chunk>)
    requires body != [] && ParseChunks(body).Some?
    ensures ParseChunk(body) == Some(first)
    ensures ParseChunks(body[12 + |first.data|..]) == Some(rest)
    ensures ParseChunks(body).value == [first] + rest
  {
    first := ParseChunk(body).value;
    rest := ParseChunks(body[12 + |first.data|..]).value;
  }

  lemma Uncons(first: Chunk, rest: seq<Chunk>)
    ensures ([first] + rest)[0] == first && ([first] + rest)[1..] == rest
  {
  }

  /** For any PNG whose first chunk has 13 bytes of data, the result reads as the same chunks with one
      pHYs chunk, its CRC valid, directly after the first. */
  lemma {:induction false} InjectedReads(bytes: seq<byte>, dpi: real)
    requires ParsePng(bytes).Some? && ParsePng(bytes).value != [] && |ParsePng(bytes).value[0].data| == 13
    ensures |bytes| >= INSERTION
    ensures var chunks := ParsePng(bytes).value;
      ParsePng(Injected(bytes, dpi)) == Some([chunks[0]] + ([PhysChunk(dpi)] + chunks[1..]))
  {
    var header, rest := FirstAndRest(bytes[8..]);
    Uncons(header, rest);
    InsertedParses(bytes[8..], header, rest, PhysChunk(dpi));
    InsertedBody(bytes, ChunkBytes(PhysChunk(dpi)));
  }

  lemma InsertedBody(bytes: seq<byte>, chunk: seq<byte>)
    requires |bytes| >= INSERTION
    ensures var r := bytes[..INSERTION] + chunk + bytes[INSERTION..];
      r[..8] == bytes[..8] && r[8..] == bytes[8..][..25] + (chunk + bytes[8..][25..])
  {
    assert bytes[..INSERTION] == bytes[..8] + bytes[8..][..25];
    assert bytes[INSERTION..] == bytes[8..][25..];
    var r := bytes[..INSERTION] + chunk + bytes[INSERTION..];
    assert r == bytes[..8] + (bytes[8..][..25] + (chunk + bytes[8..][25..]));
  }

  /** A reader finds one density for both axes, per metre, and it is the rounded one exactly when that fits an unsigned
      32-bit field. */
  lemma {:induction false} PhysReadsBack(dpi: real)
    ensures var data := PhysChunk(dpi).data;
      && |data| == 9 && ReadBE32(data[..4]) == ReadBE32(data[4..8]) && data[8] == 1
      && (ReadBE32(data[..4]) == PixelsPerMeter(dpi) <==> 0 <= PixelsPerMeter(dpi) < 0x1_0000_0000)
  {
    ReadBackBE32(PixelsPerMeter(dpi));
    Low32Fits(PixelsPerMeter(dpi));
    var data := PhysChunk(dpi).data;
    assert data[..4] == BE32(PixelsPerMeter(dpi)) && data[4..8] == BE32(PixelsPerMeter(dpi));
  }

  /** The chunk is of kind pHYs, in the unit metre, and a reader finds a density that is within half a pixel per metre of
      the one asked for, an inch being 0.0254 metres. */
  lemma DensityReadsBack(dpi: real)
    requires 0.0 <= dpi < 109_000_000.0
    ensures var chunk := PhysChunk(dpi);
      && chunk.kind == [112, 72, 89, 115] && |chunk.data| == 9 && chunk.data[8] == 1
      && -0.0127 <= ReadBE32(chunk.data[..4]) as real * 0.0254 - dpi <= 0.0127
      && ReadBE32(chunk.data[4..8]) == ReadBE32(chunk.data[..4])
  {
    PhysReadsBack(dpi);
    var perMeter := dpi / 0.0254;
    assert perMeter * 0.0254 == dpi;
    assert 0.0 <= perMeter < 4_294_967_295.0;
    assert -0.5 <= Round(perMeter) as real - perMeter <= 0.5;
  }

  // ----- the writers -----

  method PngChunk(table: array<Word>, kind: seq<byte>, data: seq<byte>) returns (chunk: array<byte>)
    requires table.Length == 256 && forall v :: 0 <= v < 256 ==> table[v] == Entry(v)
    requires |kind| == 4
    ensures fresh(chunk) && chunk[..] == ChunkBytes(Chunk(kind, data))
  {
    chunk := new byte[12 + |data|](_ => 0);
    Set(chunk, BE32(|data|), 0);
    assert chunk[..4] == BE32(|data|);
    Set(chunk, kind, 4);
    assert chunk[..8] == BE32(|data|) + kind;
    Set(chunk, data, 8);
    assert chunk[..8 + |data|] == BE32(|data|) + kind + data;
    var crc := Crc32(table, kind + data);
    Set(chunk, BE32(crc), 8 + |data|);
  }

  // Setting the chunk at the insertion point throws when the input ends before it.
  method InjectPngPhysicalDpi(table: array<Word>, bytes: seq<byte>, dpi: real) returns (r: Result<array<byte>, RangeError>)
    requires table.Length == 256 && forall v :: 0 <= v < 256 ==> table[v] == Entry(v)
    ensures r.Err? <==> |bytes| < INSERTION
    ensures r.Ok? ==> fresh(r.value) && r.value[..] == Injected(bytes, dpi)
  {
    var pixelsPerMeter := PixelsPerMeter(dpi);
    var payload := new byte[9](_ => 0);
    Set(payload, BE32(pixelsPerMeter), 0);
    Set(payload, BE32(pixelsPerMeter), 4);
    payload[8] := 1;
    assert payload[..] == PhysChunk(dpi).data;
    var chunk := PngChunk(table, PHYS_KIND, payload[..]);
    r := InsertChunk(bytes, chunk[..]);
  }

  method InsertChunk(bytes: seq<byte>, chunk: seq<byte>) returns (r: Result<array<byte>, RangeError>)
    ensures r.Err? <==> |bytes| < INSERTION
    ensures r.Ok? ==> fresh(r.value) && r.value[..] == bytes[..INSERTION] + chunk + bytes[INSERTION..]
  {
    if |bytes| < INSERTION {
      return Err(OffsetOutOfBounds);
    }
    var result := new byte[|bytes| + |chunk|](_ => 0);
    Set(result, bytes[..INSERTION], 0);
    Set(result, chunk, INSERTION);
    Set(result, bytes[INSERTION..], INSERTION + |chunk|);
    r := Ok(result);
  }
}
