// The baseline TIFF writer of frontend/src/lib/chartExport.ts, and a reader of TIFF 6.0
// (sections 2 and 6) that shares nothing with it but the byte order.
module Tiff {
  import opened Bytes

  // ----- what the writer produces -----

  datatype Field = Field(tag: nat, kind: nat, count: nat, value: nat)

  const SHORT := 3
  const LONG := 4
  const RATIONAL := 5

  const HEADER_SIZE := 8
  const TAG_COUNT := 12
  const BITS_OFFSET := 158
  const X_RESOLUTION_OFFSET := 164
  const Y_RESOLUTION_OFFSET := 172
  const PIXEL_OFFSET := 180

  // A short single value sits at the left of the four-byte value field.
  function ValueBytes(f: Field): (r: seq<byte>)
    ensures |r| == 4
  {
    if f.kind == SHORT && f.count == 1 then LE16(f.value) + [0, 0] else LE32(f.value)
  }

  function FieldBytes(f: Field): (r: seq<byte>)
    ensures |r| == 12
  {
    LE16(f.tag) + LE16(f.kind) + LE32(f.count) + ValueBytes(f)
  }

  function FieldsBytes(fields: seq<Field>): (r: seq<byte>)
    ensures |r| == 12 * |fields|
  {
    if fields == [] then []
    else FieldsBytes(fields[..|fields| - 1]) + FieldBytes(fields[|fields| - 1])
  }

  function Fields(width: nat, height: nat): (r: seq<Field>)
    ensures |r| == TAG_COUNT
  {
    [Field(256, LONG, 1, width),
     Field(257, LONG, 1, height),
     Field(258, SHORT, 3, BITS_OFFSET),
     Field(259, SHORT, 1, 1),
     Field(262, SHORT, 1, 2),
     Field(273, LONG, 1, PIXEL_OFFSET),
     Field(277, SHORT, 1, 3),
     Field(278, LONG, 1, height),
     Field(279, LONG, 1, width * height * 3),
     Field(282, RATIONAL, 1, X_RESOLUTION_OFFSET),
     Field(283, RATIONAL, 1, Y_RESOLUTION_OFFSET),
     Field(296, SHORT, 1, 2)]
  }

  function HeaderBytes(): (r: seq<byte>)
    ensures |r| == 10
  {
    [0x49, 0x49] + LE16(42) + LE32(HEADER_SIZE) + LE16(TAG_COUNT)
  }

  function ExtraBytes(dpi: real): (r: seq<byte>)
    ensures |r| == 26
  {
    LE32(0) + LE16(8) + LE16(8) + LE16(8) + LE32(Round(dpi)) + LE32(1) + LE32(Round(dpi)) + LE32(1)
  }

  datatype Rgb = Rgb(r: byte, g: byte, b: byte)

  // Reading past the end of a typed array gives undefined, which is stored as zero.
  function At(rgba: seq<byte>, i: nat): byte {
    if i < |rgba| then rgba[i] else 0
  }

  function Pixel(rgba: seq<byte>, i: nat): Rgb {
    Rgb(At(rgba, 4 * i), At(rgba, 4 * i + 1), At(rgba, 4 * i + 2))
  }

  function Pixels(rgba: seq<byte>, n: nat): (r: seq<Rgb>)
    ensures |r| == n && forall i :: 0 <= i < n ==> r[i] == Pixel(rgba, i)
  {
    seq(n, i requires 0 <= i < n => Pixel(rgba, i))
  }

  function PixelBytes(pixels: seq<Rgb>): (r: seq<byte>)
    ensures |r| == 3 * |pixels|
  {
    if pixels == [] then []
    else
      var last := |pixels| - 1;
      PixelBytes(pixels[..last]) + [pixels[last].r, pixels[last].g, pixels[last].b]
  }

  function TiffBytes(width: nat, height: nat, rgba: seq<byte>, dpi: real): seq<byte> {
    HeaderBytes() + FieldsBytes(Fields(width, height)) + ExtraBytes(dpi) + PixelBytes(Pixels(rgba, width * height))
  }

  // ----- the writer -----

  // The first |done| bytes are written, and the rest still hold their initial zeros.
  ghost predicate WrittenTo(a: array<byte>, done: seq<byte>)
    reads a
  {
    && |done| <= a.Length && a[..|done|] == done
    && forall i :: |done| <= i < a.Length ==> a[i] == 0
  }

  method Write(bytes: array<byte>, cursor: nat, src: seq<byte>, ghost done: seq<byte>)
    requires WrittenTo(bytes, done) && cursor == |done| && cursor + |src| <= bytes.Length
    modifies bytes
    ensures WrittenTo(bytes, done + src)
  {
    Set(bytes, src, cursor);
    assert bytes[..] == done + src + old(bytes[cursor + |src|..]);
    forall i | |done + src| <= i < bytes.Length ensures bytes[i] == 0 {
      assert bytes[i] == bytes[..][i] == old(bytes[cursor + |src|..])[i - |done + src|];
    }
  }

  // The header and the first k fields are written, and the next field goes to cursor.
  ghost predicate DirectoryTo(a: array<byte>, fields: seq<Field>, k: nat, cursor: nat)
    requires k <= |fields|
    reads a
  {
    cursor == 10 + 12 * k && WrittenTo(a, HeaderBytes() + FieldsBytes(fields[..k]))
  }

  lemma FieldAppended(head: seq<byte>, before: seq<Field>, f: Field)
    ensures head + FieldsBytes(before) + LE16(f.tag) + LE16(f.kind) + LE32(f.count) + ValueBytes(f)
         == head + FieldsBytes(before + [f])
  {
    assert (before + [f])[..|before|] == before;
    var x, y, z, w := LE16(f.tag), LE16(f.kind), LE32(f.count), ValueBytes(f);
    assert head + FieldsBytes(before) + x + y + z + w == head + (FieldsBytes(before) + (x + y + z + w));
  }

  // A short is written, and the two bytes after it are left at zero.
  method WriteShort(bytes: array<byte>, cursor: nat, value: nat, ghost done: seq<byte>)
    requires WrittenTo(bytes, done) && cursor == |done| && cursor + 4 <= bytes.Length
    modifies bytes
    ensures WrittenTo(bytes, done + (LE16(value) + [0, 0]))
  {
    Write(bytes, cursor, LE16(value), done);
    assert done + (LE16(value) + [0, 0]) == done + LE16(value) + [0, 0];
  }

  method WriteTag(bytes: array<byte>, cursor: nat, tag: nat, kind: nat, count: nat, value: nat,
                  ghost fields: seq<Field>, ghost k: nat) returns (next: nat)
    requires k < |fields| && fields[k] == Field(tag, kind, count, value)
    requires DirectoryTo(bytes, fields, k, cursor) && cursor + 12 <= bytes.Length
    modifies bytes
    ensures DirectoryTo(bytes, fields, k + 1, next)
  {
    ghost var done := HeaderBytes() + FieldsBytes(fields[..k]);
    FieldAppended(HeaderBytes(), fields[..k], fields[k]);
    assert fields[..k + 1] == fields[..k] + [fields[k]];
    Write(bytes, cursor, LE16(tag), done);
    Write(bytes, cursor + 2, LE16(kind), done + LE16(tag));
    Write(bytes, cursor + 4, LE32(count), done + LE16(tag) + LE16(kind));
    ghost var start := done + LE16(tag) + LE16(kind) + LE32(count);
    if kind == SHORT && count == 1 {
      WriteShort(bytes, cursor + 8, value, start);
    } else {
      Write(bytes, cursor + 8, LE32(value), start);
    }
    next := cursor + 12;
  }

  // The tags that describe the image: its size, sample format and colour space.
  method WriteImageTags(bytes: array<byte>, start: nat, width: nat, height: nat, ghost fields: seq<Field>)
    returns (cursor: nat)
    requires |fields| == TAG_COUNT && DirectoryTo(bytes, fields, 0, start) && bytes.Length >= PIXEL_OFFSET
    requires fields[0] == Field(256, LONG, 1, width) && fields[1] == Field(257, LONG, 1, height)
    requires fields[2] == Field(258, SHORT, 3, BITS_OFFSET)
    requires fields[3] == Field(259, SHORT, 1, 1) && fields[4] == Field(262, SHORT, 1, 2)
    modifies bytes
    ensures DirectoryTo(bytes, fields, 5, cursor)
  {
    cursor := WriteTag(bytes, start, 256, LONG, 1, width, fields, 0);
    cursor := WriteTag(bytes, cursor, 257, LONG, 1, height, fields, 1);
    cursor := WriteTag(bytes, cursor, 258, SHORT, 3, BITS_OFFSET, fields, 2);
    cursor := WriteTag(bytes, cursor, 259, SHORT, 1, 1, fields, 3);
    cursor := WriteTag(bytes, cursor, 262, SHORT, 1, 2, fields, 4);
  }

  // The tags of the single strip.
  method WriteStripTags(bytes: array<byte>, start: nat, height: nat, pixelBytes: nat, ghost fields: seq<Field>)
    returns (cursor: nat)
    requires |fields| == TAG_COUNT && DirectoryTo(bytes, fields, 5, start) && bytes.Length >= PIXEL_OFFSET
    requires fields[5] == Field(273, LONG, 1, PIXEL_OFFSET) && fields[6] == Field(277, SHORT, 1, 3)
    requires fields[7] == Field(278, LONG, 1, height) && fields[8] == Field(279, LONG, 1, pixelBytes)
    modifies bytes
    ensures DirectoryTo(bytes, fields, 9, cursor)
  {
    cursor := WriteTag(bytes, start, 273, LONG, 1, PIXEL_OFFSET, fields, 5);
    cursor := WriteTag(bytes, cursor, 277, SHORT, 1, 3, fields, 6);
    cursor := WriteTag(bytes, cursor, 278, LONG, 1, height, fields, 7);
    cursor := WriteTag(bytes, cursor, 279, LONG, 1, pixelBytes, fields, 8);
  }

  method WriteResolutionTags(bytes: array<byte>, start: nat, ghost fields: seq<Field>) returns (cursor: nat)
    requires |fields| == TAG_COUNT && DirectoryTo(bytes, fields, 9, start) && bytes.Length >= PIXEL_OFFSET
    requires fields[9] == Field(282, RATIONAL, 1, X_RESOLUTION_OFFSET)
    requires fields[10] == Field(283, RATIONAL, 1, Y_RESOLUTION_OFFSET) && fields[11] == Field(296, SHORT, 1, 2)
    modifies bytes
    ensures DirectoryTo(bytes, fields, TAG_COUNT, cursor)
  {
    cursor := WriteTag(bytes, start, 282, RATIONAL, 1, X_RESOLUTION_OFFSET, fields, 9);
    cursor := WriteTag(bytes, cursor, 283, RATIONAL, 1, Y_RESOLUTION_OFFSET, fields, 10);
    cursor := WriteTag(bytes, cursor, 296, SHORT, 1, 2, fields, 11);
  }

  method EncodeTiff(width: nat, height: nat, rgba: seq<byte>, dpi: real) returns (bytes: array<byte>)
    ensures fresh(bytes) && bytes[..] == TiffBytes(width, height, rgba, dpi)
  {
    var pixelBytes := width * height * 3;
    bytes := new byte[PIXEL_OFFSET + pixelBytes](_ => 0);
    ghost var head := WriteHeader(bytes);
    assert head + FieldsBytes([]) == head;
    ghost var fields := Fields(width, height);
    var cursor := WriteImageTags(bytes, HEADER_SIZE + 2, width, height, fields);
    cursor := WriteStripTags(bytes, cursor, height, pixelBytes, fields);
    cursor := WriteResolutionTags(bytes, cursor, fields);
    ghost var directory := head + FieldsBytes(Fields(width, height));
    assert Fields(width, height)[..TAG_COUNT] == Fields(width, height);
    WriteExtra(bytes, cursor, dpi, directory);
    WritePixels(bytes, width * height, rgba, directory + ExtraBytes(dpi));
    assert bytes[..] == bytes[..bytes.Length];
  }

  method WriteHeader(bytes: array<byte>) returns (ghost head: seq<byte>)
    requires WrittenTo(bytes, []) && bytes.Length >= PIXEL_OFFSET
    modifies bytes
    ensures head == HeaderBytes() && WrittenTo(bytes, head)
  {
    Write(bytes, 0, [0x49], []);
    assert [] + [0x49] == [0x49];
    Write(bytes, 1, [0x49], [0x49]);
    head := [0x49] + [0x49];
    Write(bytes, 2, LE16(42), head);
    head := head + LE16(42);
    Write(bytes, 4, LE32(HEADER_SIZE), head);
    head := head + LE32(HEADER_SIZE);
    Write(bytes, HEADER_SIZE, LE16(TAG_COUNT), head);
    head := head + LE16(TAG_COUNT);
    assert [0x49] + [0x49] == [0x49, 0x49];
  }

  // The end of the directory, the three bit depths and the two resolutions.
  method WriteExtra(bytes: array<byte>, cursor: nat, dpi: real, ghost before: seq<byte>)
    requires WrittenTo(bytes, before) && cursor == |before| == BITS_OFFSET - 4 && bytes.Length >= PIXEL_OFFSET
    modifies bytes
    ensures WrittenTo(bytes, before + ExtraBytes(dpi))
  {
    ghost var done := before;
    Write(bytes, cursor, LE32(0), done);
    done := done + LE32(0);
    Write(bytes, BITS_OFFSET, LE16(8), done);
    done := done + LE16(8);
    Write(bytes, BITS_OFFSET + 2, LE16(8), done);
    done := done + LE16(8);
    Write(bytes, BITS_OFFSET + 4, LE16(8), done);
    done := done + LE16(8);
    Write(bytes, X_RESOLUTION_OFFSET, LE32(Round(dpi)), done);
    done := done + LE32(Round(dpi));
    Write(bytes, X_RESOLUTION_OFFSET + 4, LE32(1), done);
    done := done + LE32(1);
    Write(bytes, Y_RESOLUTION_OFFSET, LE32(Round(dpi)), done);
    done := done + LE32(Round(dpi));
    Write(bytes, Y_RESOLUTION_OFFSET + 4, LE32(1), done);
    done := done + LE32(1);
    assert done == before + ExtraBytes(dpi);
  }

  method WritePixels(bytes: array<byte>, pixelCount: nat, rgba: seq<byte>, ghost before: seq<byte>)
    requires WrittenTo(bytes, before) && |before| == PIXEL_OFFSET && bytes.Length == PIXEL_OFFSET + 3 * pixelCount
    modifies bytes
    ensures WrittenTo(bytes, before + PixelBytes(Pixels(rgba, pixelCount)))
  {
    var out := PIXEL_OFFSET;
    assert before + PixelBytes(Pixels(rgba, 0)) == before;
    for index := 0 to pixelCount
      invariant out == PIXEL_OFFSET + 3 * index
      invariant WrittenTo(bytes, before + PixelBytes(Pixels(rgba, index)))
    {
      ghost var done := before + PixelBytes(Pixels(rgba, index));
      var p := Pixel(rgba, index);
      Write(bytes, out, [p.r, p.g, p.b], done);
      out := out + 3;
      assert Pixels(rgba, index + 1)[..index] == Pixels(rgba, index);
      assert done + [p.r, p.g, p.b] == before + PixelBytes(Pixels(rgba, index + 1));
    }
  }
}
