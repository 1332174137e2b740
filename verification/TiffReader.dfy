// A reader of baseline RGB TIFF files, written from TIFF 6.0 (sections 2 and 6), and the
// theorem that it recovers what the writer was given.
module TiffReader {
  import opened Wrappers
  import opened Bytes
  import opened Tiff

  // ----- the reader -----

  // A directory entry as it lies in the file; the meaning of the last four bytes depends on kind and count.
  datatype Entry = Entry(tag: nat, kind: nat, count: nat, field: seq<byte>)

  datatype Image = Image(width: nat, height: nat, xResolution: (int, nat), yResolution: (int, nat), unit: nat,
                         pixels: seq<Rgb>)

  function ReadEntry(b: seq<byte>): (r: Entry)
    requires |b| == 12
    ensures |r.field| == 4
  {
    Entry(ReadLE16(b[..2]), ReadLE16(b[2..4]), ReadLE32(b[4..8]), b[8..12])
  }

  function ReadEntries(bytes: seq<byte>, offset: nat, n: nat): (r: seq<Entry>)
    requires offset + 12 * n <= |bytes|
    ensures |r| == n
    ensures forall i :: 0 <= i < n ==> r[i] == ReadEntry(bytes[offset + 12 * i..offset + 12 * i + 12])
  {
    seq(n, i requires 0 <= i < n => ReadEntry(bytes[offset + 12 * i..offset + 12 * i + 12]))
  }

  // Section 2: the entries are sorted in ascending order by tag.
  predicate TagsAscend(entries: seq<Entry>) {
    forall i, j :: 0 <= i < j < |entries| ==> entries[i].tag < entries[j].tag
  }

  function Find(entries: seq<Entry>, tag: nat): Option<Entry> {
    if entries == [] then None
    else if entries[0].tag == tag then Some(entries[0])
    else Find(entries[1..], tag)
  }

  // A single SHORT or LONG stored in the entry itself.
  function Number(entries: seq<Entry>, tag: nat): Option<nat> {
    var e := Find(entries, tag);
    if e.None? || e.value.count != 1 || |e.value.field| != 4 then None
    else if e.value.kind == 3 then Some(ReadLE16(e.value.field[..2]))
    else if e.value.kind == 4 then Some(ReadLE32(e.value.field))
    else None
  }

  // The even offset at which an entry too big for its four bytes keeps its values.
  function External(entries: seq<Entry>, tag: nat, kind: nat, count: nat, length: nat, bytes: seq<byte>): (r: Option<nat>)
    ensures r.Some? ==> r.value + length <= |bytes|
  {
    var e := Find(entries, tag);
    if e.None? || e.value.kind != kind || e.value.count != count || |e.value.field| != 4 then None
    else
      var offset := ReadLE32(e.value.field);
      if offset % 2 == 0 && offset + length <= |bytes| then Some(offset) else None
  }

  function Rational(entries: seq<Entry>, tag: nat, bytes: seq<byte>): Option<(int, nat)> {
    var offset := External(entries, tag, 5, 1, 8, bytes);
    if offset.None? then None
    else
      var o := offset.value;
      Some((ReadLE32(bytes[o..o + 4]), ReadLE32(bytes[o + 4..o + 8])))
  }

  function EightBitSamples(entries: seq<Entry>, bytes: seq<byte>): bool {
    var offset := External(entries, 258, 3, 3, 6, bytes);
    && offset.Some?
    && ReadLE16(bytes[offset.value..offset.value + 2]) == 8
    && ReadLE16(bytes[offset.value + 2..offset.value + 4]) == 8
    && ReadLE16(bytes[offset.value + 4..offset.value + 6]) == 8
  }

  function ReadPixels(data: seq<byte>, n: nat): (r: seq<Rgb>)
    requires |data| == 3 * n
    ensures |r| == n && forall i :: 0 <= i < n ==> r[i] == Rgb(data[3 * i], data[3 * i + 1], data[3 * i + 2])
  {
    seq(n, i requires 0 <= i < n => Rgb(data[3 * i], data[3 * i + 1], data[3 * i + 2]))
  }

  // The single strip of an uncompressed 8-bit RGB image.
  function ReadStrip(entries: seq<Entry>, bytes: seq<byte>, width: nat, height: nat): Option<seq<Rgb>> {
    var offset, rows, count := Number(entries, 273), Number(entries, 278), Number(entries, 279);
    if offset.None? || rows.None? || count.None? then None
    else if rows.value < height || count.value != 3 * (width * height) then None
    else if offset.value + count.value > |bytes| then None
    else Some(ReadPixels(bytes[offset.value..offset.value + count.value], width * height))
  }

  function ReadImage(entries: seq<Entry>, bytes: seq<byte>): Option<Image> {
    var width, height := Number(entries, 256), Number(entries, 257);
    var x, y, unit := Rational(entries, 282, bytes), Rational(entries, 283, bytes), Number(entries, 296);
    if width.None? || height.None? || x.None? || y.None? || unit.None? then None
    else if !EightBitSamples(entries, bytes) || Number(entries, 277) != Some(3) then None
    else if Number(entries, 259) != Some(1) || Number(entries, 262) != Some(2) then None
    else
      var pixels := ReadStrip(entries, bytes, width.value, height.value);
      if pixels.None? then None
      else Some(Image(width.value, height.value, x.value, y.value, unit.value, pixels.value))
  }

  // The entries of the only image file directory.
  function ReadDirectory(bytes: seq<byte>): Option<seq<Entry>> {
    if |bytes| < 8 || bytes[..2] != [0x49, 0x49] || ReadLE16(bytes[2..4]) != 42 then None
    else
      var start := ReadLE32(bytes[4..8]);
      if start % 2 != 0 || start + 2 > |bytes| then None
      else
        var n := ReadLE16(bytes[start..start + 2]);
        var end := start + 2 + 12 * n;
        if end + 4 > |bytes| || ReadLE32(bytes[end..end + 4]) != 0 then None
        else
          var entries := ReadEntries(bytes, start + 2, n);
          if TagsAscend(entries) then Some(entries) else None
  }

  function ReadTiff(bytes: seq<byte>): Option<Image> {
    var entries := ReadDirectory(bytes);
    if entries.None? then None else ReadImage(entries.value, bytes)
  }

  // ----- what the reader finds in the writer's output -----

  // The entry a reader sees where the writer put a field.
  function Seen(f: Field): Entry {
    Entry(Low16(f.tag), Low16(f.kind), Low32(f.count), ValueBytes(f))
  }

  function SeenAll(fields: seq<Field>): (r: seq<Entry>)
    ensures |r| == |fields| && forall i :: 0 <= i < |r| ==> r[i] == Seen(fields[i])
  {
    seq(|fields|, i requires 0 <= i < |fields| => Seen(fields[i]))
  }

  lemma FieldIsSeen(f: Field)
    ensures ReadEntry(FieldBytes(f)) == Seen(f)
  {
    var b := FieldBytes(f);
    assert b[..2] == LE16(f.tag) && b[2..4] == LE16(f.kind) && b[4..8] == LE32(f.count) && b[8..12] == ValueBytes(f);
    ReadBackLE16(f.tag);
    ReadBackLE16(f.kind);
    ReadBackLE32(f.count);
  }

  lemma SubSlice(s: seq<byte>, a: nat, b: nat, i: nat, j: nat)
    requires a <= b <= |s| && i <= j <= b - a
    ensures s[a..b][i..j] == s[a + i..a + j]
  {
    var left, right := s[a..b][i..j], s[a + i..a + j];
    assert |left| == |right|;
    assert forall k :: 0 <= k < |left| ==> left[k] == right[k];
  }

  lemma SliceOfFirst(s: seq<byte>, t: seq<byte>, i: nat, j: nat)
    requires i <= j <= |s|
    ensures (s + t)[i..j] == s[i..j]
  {
  }

  lemma SliceOfSecond(s: seq<byte>, t: seq<byte>)
    ensures (s + t)[|s|..|s| + |t|] == t
  {
  }

  // The bytes of all but the last field come first.
  lemma {:induction false} LastField(fields: seq<Field>) returns (before: seq<byte>, last: seq<byte>)
    requires fields != []
    ensures before == FieldsBytes(fields[..|fields| - 1]) && last == FieldBytes(fields[|fields| - 1])
    ensures FieldsBytes(fields) == before + last
  {
    before, last := FieldsBytes(fields[..|fields| - 1]), FieldBytes(fields[|fields| - 1]);
  }

  // The twelve bytes at position p.
  function Block(s: seq<byte>, p: nat): seq<byte>
    requires p + 12 <= |s|
  {
    s[p..p + 12]
  }

  lemma {:induction false} FieldAt(fields: seq<Field>, i: nat, p: nat)
    requires i < |fields| && p == 12 * i
    ensures Block(FieldsBytes(fields), p) == FieldBytes(fields[i])
    decreases |fields|
  {
    var before, last := LastField(fields);
    if i == |fields| - 1 {
      SliceOfSecond(before, last);
    } else {
      FieldAt(fields[..|fields| - 1], i, p);
      SliceOfFirst(before, last, p, p + 12);
    }
  }

  // Where each part of the file lies.
  lemma Layout(head: seq<byte>, fields: seq<byte>, extra: seq<byte>, pixels: seq<byte>)
    requires |head| == 10 && |fields| == 144 && |extra| == 26
    ensures var bytes := head + fields + extra + pixels;
      && |bytes| == PIXEL_OFFSET + |pixels|
      && bytes[..10] == head && bytes[10..154] == fields && bytes[154..180] == extra && bytes[180..] == pixels
  {
    var bytes := head + fields + extra + pixels;
    assert bytes == head + (fields + (extra + pixels));
    assert bytes[10..] == fields + (extra + pixels);
    assert bytes[10..154] == bytes[10..][..144];
    assert bytes[154..] == bytes[10..][144..] == extra + pixels;
    assert bytes[154..180] == bytes[154..][..26];
    assert bytes[180..] == bytes[154..][26..];
  }

  lemma FieldInFile(bytes: seq<byte>, fields: seq<Field>, i: nat)
    requires |bytes| >= PIXEL_OFFSET && |fields| == TAG_COUNT && bytes[10..154] == FieldsBytes(fields) && i < TAG_COUNT
    ensures ReadEntry(bytes[10 + 12 * i..10 + 12 * i + 12]) == Seen(fields[i])
  {
    SubSlice(bytes, 10, 154, 12 * i, 12 * i + 12);
    FieldAt(fields, i, 12 * i);
    FieldIsSeen(fields[i]);
  }

  lemma HeaderIsRead(bytes: seq<byte>)
    requires |bytes| >= 10 && bytes[..10] == HeaderBytes()
    ensures bytes[..2] == [0x49, 0x49] && ReadLE16(bytes[2..4]) == 42
    ensures ReadLE32(bytes[4..8]) == 8 && ReadLE16(bytes[8..10]) == TAG_COUNT
  {
    SubSlice(bytes, 0, 10, 0, 2);
    SubSlice(bytes, 0, 10, 2, 4);
    SubSlice(bytes, 0, 10, 4, 8);
    SubSlice(bytes, 0, 10, 8, 10);
    var head := HeaderBytes();
    assert head[0..2] == [0x49, 0x49];
    assert head[2..4] == LE16(42) && head[4..8] == LE32(HEADER_SIZE) && head[8..10] == LE16(TAG_COUNT);
    ReadBackLE16(42);
    ReadBackLE32(HEADER_SIZE);
    ReadBackLE16(TAG_COUNT);
  }

  lemma ExtraIsRead(bytes: seq<byte>, dpi: real)
    requires |bytes| >= PIXEL_OFFSET && bytes[154..180] == ExtraBytes(dpi)
    ensures ReadLE32(bytes[154..158]) == 0
    ensures ReadLE16(bytes[158..160]) == ReadLE16(bytes[160..162]) == ReadLE16(bytes[162..164]) == 8
    ensures ReadLE32(bytes[164..168]) == ReadLE32(bytes[172..176]) == Low32(Round(dpi))
    ensures ReadLE32(bytes[168..172]) == ReadLE32(bytes[176..180]) == 1
  {
    ExtraParts(dpi);
    SubSlice(bytes, 154, 180, 0, 4);
    SubSlice(bytes, 154, 180, 4, 6);
    SubSlice(bytes, 154, 180, 6, 8);
    SubSlice(bytes, 154, 180, 8, 10);
    SubSlice(bytes, 154, 180, 10, 14);
    SubSlice(bytes, 154, 180, 14, 18);
    SubSlice(bytes, 154, 180, 18, 22);
    SubSlice(bytes, 154, 180, 22, 26);
    ReadBackLE32(0);
    ReadBackLE16(8);
    ReadBackLE32(1);
    ReadBackLE32(Round(dpi));
  }

  lemma ExtraParts(dpi: real)
    ensures var e := ExtraBytes(dpi);
      && e[0..4] == LE32(0) && e[4..6] == LE16(8) && e[6..8] == LE16(8) && e[8..10] == LE16(8)
      && e[10..14] == LE32(Round(dpi)) && e[14..18] == LE32(1) && e[18..22] == LE32(Round(dpi)) && e[22..26] == LE32(1)
  {
  }

  lemma {:induction false} FindSeen(entries: seq<Entry>, i: nat)
    requires TagsAscend(entries) && i < |entries|
    ensures Find(entries, entries[i].tag) == Some(entries[i])
  {
    if i > 0 {
      assert entries[0].tag < entries[i].tag;
      FindSeen(entries[1..], i - 1);
    }
  }

  lemma NextTagIsHigher(width: nat, height: nat, i: nat)
    requires i < TAG_COUNT - 1
    ensures SeenAll(Fields(width, height))[i].tag < SeenAll(Fields(width, height))[i + 1].tag
  {
    var fields := Fields(width, height);
    assert fields[i].tag < fields[i + 1].tag < 0x1_0000;
  }

  lemma {:induction false} HigherTag(entries: seq<Entry>, i: nat, j: nat)
    requires i < j < |entries| && forall k :: 0 <= k < |entries| - 1 ==> entries[k].tag < entries[k + 1].tag
    ensures entries[i].tag < entries[j].tag
  {
    if i + 1 < j {
      HigherTag(entries, i, j - 1);
      assert entries[j - 1].tag < entries[j - 1 + 1].tag;
    }
  }

  lemma {:induction false} FieldsAscend(width: nat, height: nat)
    ensures TagsAscend(SeenAll(Fields(width, height)))
  {
    var entries := SeenAll(Fields(width, height));
    forall i: nat | i < TAG_COUNT - 1 ensures entries[i].tag < entries[i + 1].tag {
      NextTagIsHigher(width, height, i);
    }
    forall i: nat, j: nat | i < j < TAG_COUNT ensures entries[i].tag < entries[j].tag {
      HigherTag(entries, i, j);
    }
  }

  lemma DirectoryIsRead(width: nat, height: nat, rgba: seq<byte>, dpi: real)
    ensures ReadDirectory(TiffBytes(width, height, rgba, dpi)) == Some(SeenAll(Fields(width, height)))
  {
    var bytes, fields := TiffBytes(width, height, rgba, dpi), Fields(width, height);
    Layout(HeaderBytes(), FieldsBytes(fields), ExtraBytes(dpi), PixelBytes(Pixels(rgba, width * height)));
    HeaderIsRead(bytes);
    ExtraIsRead(bytes, dpi);
    forall i | 0 <= i < TAG_COUNT ensures ReadEntries(bytes, 10, TAG_COUNT)[i] == SeenAll(fields)[i] {
      FieldInFile(bytes, fields, i);
    }
    assert ReadEntries(bytes, 10, TAG_COUNT) == SeenAll(fields);
    FieldsAscend(width, height);
  }

  lemma SeenNumber(f: Field)
    requires f.tag < 0x1_0000 && f.count == 1 && (f.kind == SHORT || f.kind == LONG)
    ensures var e := Seen(f);
      && e.tag == f.tag && e.kind == f.kind && e.count == 1 && |e.field| == 4
      && (f.kind == SHORT ==> ReadLE16(e.field[..2]) == Low16(f.value))
      && (f.kind == LONG ==> ReadLE32(e.field) == Low32(f.value))
  {
    if f.kind == SHORT {
      assert ValueBytes(f)[..2] == LE16(f.value);
      ReadBackLE16(f.value);
    } else {
      ReadBackLE32(f.value);
    }
  }

  lemma NumberIsRead(fields: seq<Field>, i: nat)
    requires TagsAscend(SeenAll(fields)) && i < |fields|
    requires fields[i].tag < 0x1_0000 && fields[i].count == 1 && (fields[i].kind == SHORT || fields[i].kind == LONG)
    ensures Number(SeenAll(fields), fields[i].tag)
         == Some(if fields[i].kind == SHORT then Low16(fields[i].value) else Low32(fields[i].value))
  {
    SeenNumber(fields[i]);
    FindSeen(SeenAll(fields), i);
  }

  // What an entry says whose values lie outside it.
  lemma SeenExternal(f: Field)
    requires f.tag < 0x1_0000 && f.kind < 0x1_0000 && f.count < 0x1_0000 && f.value < 0x1_0000
    requires f.kind != SHORT || f.count != 1
    ensures var e := Seen(f);
      e.tag == f.tag && e.kind == f.kind && e.count == f.count && |e.field| == 4 && ReadLE32(e.field) == f.value
  {
    ReadBackLE32(f.value);
  }

  lemma ExternalIsRead(fields: seq<Field>, i: nat, length: nat, bytes: seq<byte>)
    requires TagsAscend(SeenAll(fields)) && i < |fields|
    requires fields[i].tag < 0x1_0000 && fields[i].kind < 0x1_0000 && fields[i].count < 0x1_0000
    requires fields[i].value < 0x1_0000 && fields[i].value % 2 == 0
    requires fields[i].kind != SHORT || fields[i].count != 1
    requires fields[i].value + length <= |bytes|
    ensures External(SeenAll(fields), fields[i].tag, fields[i].kind, fields[i].count, length, bytes)
         == Some(fields[i].value)
  {
    SeenExternal(fields[i]);
    FindSeen(SeenAll(fields), i);
  }

  // ----- the pixels -----

  lemma {:induction false} PixelAt(pixels: seq<Rgb>, i: nat)
    requires i < |pixels|
    ensures var d := PixelBytes(pixels);
      d[3 * i] == pixels[i].r && d[3 * i + 1] == pixels[i].g && d[3 * i + 2] == pixels[i].b
    decreases |pixels|
  {
    var last := |pixels| - 1;
    if i < last {
      PixelAt(pixels[..last], i);
    }
  }

  lemma {:induction false} PixelsAreRead(pixels: seq<Rgb>)
    ensures ReadPixels(PixelBytes(pixels), |pixels|) == pixels
  {
    forall i | 0 <= i < |pixels| ensures ReadPixels(PixelBytes(pixels), |pixels|)[i] == pixels[i] {
      PixelAt(pixels, i);
    }
  }

  // ----- the round trip -----

  // What the image was: a pixel per RGBA quadruple, the resolution rounded to a whole number per inch.
  function Source(width: nat, height: nat, rgba: seq<byte>, dpi: real): Image {
    Image(width, height, (Round(dpi), 1), (Round(dpi), 1), 2, Pixels(rgba, width * height))
  }

  // Every number the writer stores in a 32-bit field fits there.
  predicate Fits(width: nat, height: nat, dpi: real) {
    && width < 0x1_0000_0000 && height < 0x1_0000_0000 && width * height * 3 < 0x1_0000_0000
    && 0 <= Round(dpi) < 0x1_0000_0000
  }

  lemma SizeIsRead(width: nat, height: nat)
    ensures var entries := SeenAll(Fields(width, height));
      Number(entries, 256) == Some(Low32(width)) && Number(entries, 257) == Some(Low32(height))
  {
    FieldsAscend(width, height);
    NumberIsRead(Fields(width, height), 0);
    NumberIsRead(Fields(width, height), 1);
  }

  lemma FormatIsRead(width: nat, height: nat)
    ensures var entries := SeenAll(Fields(width, height));
      && Number(entries, 259) == Some(1) && Number(entries, 262) == Some(2)
      && Number(entries, 277) == Some(3) && Number(entries, 296) == Some(2)
  {
    FieldsAscend(width, height);
    NumberIsRead(Fields(width, height), 3);
    NumberIsRead(Fields(width, height), 4);
    NumberIsRead(Fields(width, height), 6);
    NumberIsRead(Fields(width, height), 11);
  }

  lemma StripTagsAreRead(width: nat, height: nat)
    ensures var entries := SeenAll(Fields(width, height));
      && Number(entries, 273) == Some(PIXEL_OFFSET) && Number(entries, 278) == Some(Low32(height))
      && Number(entries, 279) == Some(Low32(width * height * 3))
  {
    var fields := Fields(width, height);
    FieldsAscend(width, height);
    assert fields[5] == Field(273, LONG, 1, PIXEL_OFFSET);
    assert fields[7] == Field(278, LONG, 1, height);
    assert fields[8] == Field(279, LONG, 1, width * height * 3);
    NumberIsRead(fields, 5);
    NumberIsRead(fields, 7);
    NumberIsRead(fields, 8);
  }

  lemma ExternalsAreRead(width: nat, height: nat, bytes: seq<byte>, dpi: real)
    requires |bytes| >= PIXEL_OFFSET && bytes[154..180] == ExtraBytes(dpi)
    ensures var entries := SeenAll(Fields(width, height));
      && EightBitSamples(entries, bytes)
      && Rational(entries, 282, bytes) == Some((Low32(Round(dpi)), 1))
      && Rational(entries, 283, bytes) == Some((Low32(Round(dpi)), 1))
  {
    var fields := Fields(width, height);
    FieldsAscend(width, height);
    ExternalIsRead(fields, 2, 6, bytes);
    ExternalIsRead(fields, 9, 8, bytes);
    ExternalIsRead(fields, 10, 8, bytes);
    ExtraIsRead(bytes, dpi);
  }

  // The strip a reader extracts, when the byte count stored is n.
  function StripOf(strip: seq<byte>, w: nat, h: nat, n: nat): Option<seq<Rgb>> {
    if n == 3 * (w * h) && n <= |strip| then Some(ReadPixels(strip[..n], w * h)) else None
  }

  lemma StripIsRead(entries: seq<Entry>, bytes: seq<byte>, strip: seq<byte>, w: nat, h: nat, n: nat)
    requires Number(entries, 273) == Some(PIXEL_OFFSET) && Number(entries, 278) == Some(h) && Number(entries, 279) == Some(n)
    requires |bytes| == PIXEL_OFFSET + |strip| && bytes[PIXEL_OFFSET..] == strip
    ensures ReadStrip(entries, bytes, w, h) == StripOf(strip, w, h, n)
  {
    if n <= |strip| {
      SubSlice(bytes, PIXEL_OFFSET, |bytes|, 0, n);
      assert bytes[PIXEL_OFFSET..|bytes|] == bytes[PIXEL_OFFSET..];
      assert strip[0..n] == strip[..n];
    }
  }

  // What the reader makes of any file the writer produces, whether or not its numbers fit.
  lemma {:induction false} WhatIsRead(width: nat, height: nat, rgba: seq<byte>, dpi: real)
    ensures var w, h, res := Low32(width), Low32(height), (Low32(Round(dpi)), 1);
      var pixels := StripOf(PixelBytes(Pixels(rgba, width * height)), w, h, Low32(width * height * 3));
      ReadTiff(TiffBytes(width, height, rgba, dpi))
      == if pixels.Some? then Some(Image(w, h, res, res, 2, pixels.value)) else None
  {
    var bytes := TiffBytes(width, height, rgba, dpi);
    var strip := PixelBytes(Pixels(rgba, width * height));
    Layout(HeaderBytes(), FieldsBytes(Fields(width, height)), ExtraBytes(dpi), strip);
    DirectoryIsRead(width, height, rgba, dpi);
    SizeIsRead(width, height);
    FormatIsRead(width, height);
    StripTagsAreRead(width, height);
    ExternalsAreRead(width, height, bytes, dpi);
    StripIsRead(SeenAll(Fields(width, height)), bytes, strip, Low32(width), Low32(height), Low32(width * height * 3));
  }

  lemma WholeStrip(pixels: seq<Rgb>, w: nat, h: nat)
    requires |pixels| == w * h
    ensures StripOf(PixelBytes(pixels), w, h, 3 * (w * h)) == Some(pixels)
  {
    assert PixelBytes(pixels)[..3 * (w * h)] == PixelBytes(pixels);
    PixelsAreRead(pixels);
  }

  lemma {:induction false} FitsIsRead(width: nat, height: nat, rgba: seq<byte>, dpi: real)
    requires Fits(width, height, dpi)
    ensures ReadTiff(TiffBytes(width, height, rgba, dpi)) == Some(Source(width, height, rgba, dpi))
  {
    WhatIsRead(width, height, rgba, dpi);
    Low32Fits(width);
    Low32Fits(height);
    Low32Fits(width * height * 3);
    Low32Fits(Round(dpi));
    assert width * height * 3 == 3 * (width * height);
    WholeStrip(Pixels(rgba, width * height), width, height);
  }

  lemma ReadFits(width: nat, height: nat, rgba: seq<byte>, dpi: real)
    requires ReadTiff(TiffBytes(width, height, rgba, dpi)) == Some(Source(width, height, rgba, dpi))
    ensures Fits(width, height, dpi)
  {
    WhatIsRead(width, height, rgba, dpi);
    Low32Fits(width);
    Low32Fits(height);
    Low32Fits(Round(dpi));
    assert Low32(width * height * 3) == 3 * (width * height);
    Low32Fits(width * height * 3);
    assert width * height * 3 == 3 * (width * height);
  }

  /** For every image whose numbers fit unsigned 32-bit fields, and for no other, an independent reader gets back the
      dimensions, the resolution and every RGB triple. */
  lemma {:induction false} RoundTrip(width: nat, height: nat, rgba: seq<byte>, dpi: real)
    ensures ReadTiff(TiffBytes(width, height, rgba, dpi)) == Some(Source(width, height, rgba, dpi))
       <==> Fits(width, height, dpi)
  {
    if Fits(width, height, dpi) {
      FitsIsRead(width, height, rgba, dpi);
    } else if ReadTiff(TiffBytes(width, height, rgba, dpi)) == Some(Source(width, height, rgba, dpi)) {
      ReadFits(width, height, rgba, dpi);
    }
  }

  function ByteAt(rgba: seq<byte>, i: nat): byte { if i < |rgba| then rgba[i] else 0 }

  /** What a reader of a file whose numbers fit has in hand: the dimensions, the resolution in whole pixels per inch, at
      most half a pixel from the one asked for, and at each place the red, green and blue byte of that place. */
  lemma ImageReadsBack(width: nat, height: nat, rgba: seq<byte>, dpi: real)
    requires Fits(width, height, dpi)
    ensures ReadTiff(TiffBytes(width, height, rgba, dpi)).Some?
    ensures var image := ReadTiff(TiffBytes(width, height, rgba, dpi)).value;
      && image.width == width && image.height == height && |image.pixels| == width * height
      && image.xResolution == image.yResolution && image.xResolution.1 == 1 && image.unit == 2
      && -0.5 <= image.xResolution.0 as real - dpi <= 0.5
      && forall i :: 0 <= i < width * height ==>
           && image.pixels[i].r == ByteAt(rgba, 4 * i) && image.pixels[i].g == ByteAt(rgba, 4 * i + 1)
           && image.pixels[i].b == ByteAt(rgba, 4 * i + 2)
  {
    FitsIsRead(width, height, rgba, dpi);
  }

  /** A failing input: an empty image of width 2^32 is read as one of width 0. */
  lemma TooWide(rgba: seq<byte>, dpi: real)
    ensures ReadTiff(TiffBytes(0x1_0000_0000, 0, rgba, dpi)) != Some(Source(0x1_0000_0000, 0, rgba, dpi))
    ensures ReadTiff(TiffBytes(0x1_0000_0000, 0, rgba, dpi)).Some?
    ensures ReadTiff(TiffBytes(0x1_0000_0000, 0, rgba, dpi)).value.width == 0
  {
    WhatIsRead(0x1_0000_0000, 0, rgba, dpi);
    assert Low32(0x1_0000_0000) == 0 && 0x1_0000_0000 * 0 * 3 == 0;
    WholeStrip(Pixels(rgba, 0), 0, 0);
  }

  // ----- the layout -----

  datatype Region = Region(offset: nat, length: nat)

  // The size of one value of each type of section 2.
  function TypeSize(kind: nat): nat {
    if kind in {1, 2, 6, 7} then 1
    else if kind in {3, 8} then 2
    else if kind in {4, 9, 11} then 4
    else if kind in {5, 10, 12} then 8
    else 0
  }

  // Values that do not fit the four bytes of their entry lie at the offset it holds instead.
  function ExternalOf(e: Entry): seq<Region> {
    if |e.field| == 4 && TypeSize(e.kind) * e.count > 4 then [Region(ReadLE32(e.field), TypeSize(e.kind) * e.count)]
    else []
  }

  function Externals(entries: seq<Entry>, i: nat): seq<Region>
    requires i <= |entries|
    decreases |entries| - i
  {
    if i == |entries| then [] else ExternalOf(entries[i]) + Externals(entries, i + 1)
  }

  // Everything a reader of the file is sent to: the header, the directory it points at, the external values of every
  // entry of that directory, and the strip.
  function Referenced(bytes: seq<byte>): Option<seq<Region>> {
    var entries := ReadDirectory(bytes);
    if entries.None? then None else RegionsOf(entries.value, ReadLE32(bytes[4..8]))
  }

  function RegionsOf(entries: seq<Entry>, directory: nat): Option<seq<Region>> {
    var strip, count := Number(entries, 273), Number(entries, 279);
    if strip.None? || count.None? then None
    else
      Some([Region(0, 8), Region(directory, 2 + 12 * |entries| + 4)] + Externals(entries, 0)
           + [Region(strip.value, count.value)])
  }

  lemma WriterExternal(f: Field)
    requires f.tag < 0x1_0000 && f.kind < 0x1_0000 && f.count < 0x1_0000
    requires TypeSize(f.kind) * f.count > 4 ==> f.value < 0x1_0000
    ensures ExternalOf(Seen(f)) ==
            if TypeSize(f.kind) * f.count > 4 then [Region(f.value, TypeSize(f.kind) * f.count)] else []
  {
    if TypeSize(f.kind) * f.count > 4 {
      SeenExternal(f);
    }
  }

  lemma FitsItsEntry(width: nat, height: nat, i: nat)
    requires i < TAG_COUNT && i != 2 && i != 9 && i != 10
    ensures ExternalOf(SeenAll(Fields(width, height))[i]) == []
  {
    var f := Fields(width, height)[i];
    assert TypeSize(f.kind) * f.count <= 4;
    WriterExternal(f);
  }

  lemma ExternalAt(width: nat, height: nat, i: nat, r: Region)
    requires i == 2 || i == 9 || i == 10
    requires var f := Fields(width, height)[i]; r == Region(f.value, TypeSize(f.kind) * f.count)
    ensures ExternalOf(SeenAll(Fields(width, height))[i]) == [r]
  {
    var f := Fields(width, height)[i];
    assert 4 < TypeSize(f.kind) * f.count < 0x1_0000 && f.value < 0x1_0000;
    WriterExternal(f);
  }

  lemma OthersFit(width: nat, height: nat)
    ensures var entries := SeenAll(Fields(width, height));
      && |entries| == 12 && Externals(entries, 0) == Externals(entries, 2)
      && Externals(entries, 3) == Externals(entries, 9) && Externals(entries, 11) == Externals(entries, 12)
  {
    var entries := SeenAll(Fields(width, height));
    forall i | 0 <= i < TAG_COUNT && i != 2 && i != 9 && i != 10 ensures ExternalOf(entries[i]) == [] {
      FitsItsEntry(width, height, i);
    }
    NothingExternal(entries, 11, 12);
    NothingExternal(entries, 3, 9);
    NothingExternal(entries, 0, 2);
  }

  lemma ExternalsAre(width: nat, height: nat)
    ensures Externals(SeenAll(Fields(width, height)), 0) ==
            [Region(BITS_OFFSET, 6), Region(X_RESOLUTION_OFFSET, 8), Region(Y_RESOLUTION_OFFSET, 8)]
  {
    ExternalAt(width, height, 2, Region(BITS_OFFSET, 6));
    ExternalAt(width, height, 9, Region(X_RESOLUTION_OFFSET, 8));
    ExternalAt(width, height, 10, Region(Y_RESOLUTION_OFFSET, 8));
    OthersFit(width, height);
    ThreeExternals(SeenAll(Fields(width, height)), Region(BITS_OFFSET, 6), Region(X_RESOLUTION_OFFSET, 8), Region(Y_RESOLUTION_OFFSET, 8));
  }

  lemma ThreeExternals(entries: seq<Entry>, a: Region, b: Region, c: Region)
    requires |entries| == 12
    requires ExternalOf(entries[2]) == [a] && ExternalOf(entries[9]) == [b] && ExternalOf(entries[10]) == [c]
    requires Externals(entries, 0) == Externals(entries, 2) && Externals(entries, 3) == Externals(entries, 9)
    requires Externals(entries, 11) == Externals(entries, 12)
    ensures Externals(entries, 0) == [a, b, c]
  {
    assert Externals(entries, 10) == [c] + Externals(entries, 11);
    assert Externals(entries, 9) == [b] + Externals(entries, 10);
    assert Externals(entries, 2) == [a] + Externals(entries, 3);
  }

  lemma {:induction false} NothingExternal(entries: seq<Entry>, i: nat, j: nat)
    requires i <= j <= |entries| && forall k :: i <= k < j ==> ExternalOf(entries[k]) == []
    ensures Externals(entries, i) == Externals(entries, j)
    decreases j - i
  {
    if i < j {
      NothingExternal(entries, i + 1, j);
    }
  }

  // The writer's regions, in the order of the file, for n bytes of pixels.
  function WriterRegions(n: nat): seq<Region> {
    [Region(0, 8), Region(HEADER_SIZE, 150), Region(BITS_OFFSET, 6), Region(X_RESOLUTION_OFFSET, 8),
     Region(Y_RESOLUTION_OFFSET, 8), Region(PIXEL_OFFSET, n)]
  }

  lemma RegionsAre(width: nat, height: nat)
    ensures RegionsOf(SeenAll(Fields(width, height)), HEADER_SIZE) == Some(WriterRegions(Low32(width * height * 3)))
  {
    StripTagsAreRead(width, height);
    ExternalsAre(width, height);
    var n := Low32(width * height * 3);
    var bits, x, y := Region(BITS_OFFSET, 6), Region(X_RESOLUTION_OFFSET, 8), Region(Y_RESOLUTION_OFFSET, 8);
    assert [Region(0, 8), Region(HEADER_SIZE, 150)] + [bits, x, y] + [Region(PIXEL_OFFSET, n)] == WriterRegions(n);
  }

  lemma ReferencedAre(width: nat, height: nat, rgba: seq<byte>, dpi: real)
    ensures Referenced(TiffBytes(width, height, rgba, dpi)) == Some(WriterRegions(Low32(width * height * 3)))
  {
    var bytes := TiffBytes(width, height, rgba, dpi);
    Layout(HeaderBytes(), FieldsBytes(Fields(width, height)), ExtraBytes(dpi), PixelBytes(Pixels(rgba, width * height)));
    HeaderIsRead(bytes);
    DirectoryIsRead(width, height, rgba, dpi);
    RegionsAre(width, height);
  }

  lemma WriterRegionsAre(n: nat)
    ensures var r := WriterRegions(n);
      && Apart(r) && (forall i :: 0 <= i < |r| ==> r[i].offset % 2 == 0 && r[i].offset + r[i].length <= PIXEL_OFFSET + n)
      && forall length :: Covers(r, length) <==> length == PIXEL_OFFSET + n
  {
  }

  // One region after the other, with nothing shared.
  predicate Apart(regions: seq<Region>) {
    forall i, j :: 0 <= i < j < |regions| ==> regions[i].offset + regions[i].length <= regions[j].offset
  }

  predicate Covers(regions: seq<Region>, length: nat) {
    && regions != [] && regions[0].offset == 0
    && (forall i :: 0 <= i < |regions| - 1 ==> regions[i].offset + regions[i].length == regions[i + 1].offset)
    && regions[|regions| - 1].offset + regions[|regions| - 1].length == length
  }

  /** The regions that the offsets stored in the file refer to are disjoint, even-aligned and in bounds for every image;
      and they make up the whole file exactly when the size of the pixel data fits its 32-bit field. */
  lemma {:induction false} LayoutIsTight(width: nat, height: nat, rgba: seq<byte>, dpi: real)
    ensures var bytes := TiffBytes(width, height, rgba, dpi); var regions := Referenced(bytes);
      && regions.Some? && |regions.value| == 6 && Apart(regions.value)
      && (forall r :: r in regions.value ==> r.offset % 2 == 0 && r.offset + r.length <= |bytes|)
      && (Covers(regions.value, |bytes|) <==> width * height * 3 < 0x1_0000_0000)
  {
    Layout(HeaderBytes(), FieldsBytes(Fields(width, height)), ExtraBytes(dpi), PixelBytes(Pixels(rgba, width * height)));
    ReferencedAre(width, height, rgba, dpi);
    WriterRegionsAre(Low32(width * height * 3));
    Low32Fits(width * height * 3);
    Low32AtMost(width * height * 3);
    assert width * height * 3 == 3 * (width * height);
  }
}
