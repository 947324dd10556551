/**
 * Decoding approved icons: chunk walk, the five PNG filters undone in place, RGB widened to RGBA (section 6 of RFC
 * 2083).
 */
module PngPixels {
  import opened Common
  import opened Bytes

  // ---- Filters ----

  function Abs(n: int): nat {
    if n < 0 then -n else n
  }

  /** min((a, b, c), key=abs(p - value)): the first of the nearest. */
  function Paeth(a: byte, b: byte, c: byte): byte {
    var p: int := a as int + b as int - c as int;
    if Abs(p - a) <= Abs(p - b) && Abs(p - a) <= Abs(p - c) then a
    else if Abs(p - b) <= Abs(p - c) then b
    else c
  }

  /** The nearest neighbour to a + b - c; ties go to the left one, then to the one above. */
  lemma PaethIsNearest(a: byte, b: byte, c: byte)
    ensures var p, r := a as int + b as int - c as int, Paeth(a, b, c);
      && Abs(p - r) <= Abs(p - a) && Abs(p - r) <= Abs(p - b) && Abs(p - r) <= Abs(p - c)
      && (Abs(p - r) == Abs(p - a) ==> r == a)
      && (Abs(p - r) == Abs(p - b) && Abs(p - r) < Abs(p - a) ==> r == b)
      && (r == a || r == b || r == c)
  {
  }

  function Predictor(filter: byte, a: byte, b: byte, c: byte): byte {
    if filter == 1 then a
    else if filter == 2 then b
    else if filter == 3 then (a as int + b as int) / 2
    else if filter == 4 then Paeth(a, b, c)
    else 0
  }

  /** The byte j places into s, or 0 left of its start. */
  function At(s: seq<byte>, j: int): byte
    requires j < |s|
  {
    if j < 0 then 0 else s[j]
  }

  /** What the encoder writes for a row: each byte less its prediction from the original neighbours. */
  function Filtered(filter: byte, channels: nat, row: seq<byte>, previous: seq<byte>): (r: seq<byte>)
    requires channels > 0 && |previous| == |row|
    ensures |r| == |row|
  {
    if row == [] then []
    else
      var i := |row| - 1;
      var predictor := Predictor(filter, At(row[..i], i - channels), previous[i], At(previous, i - channels));
      Filtered(filter, channels, row[..i], previous[..i]) + [(row[i] as int - predictor as int) % 256]
  }

  /** What the decoder makes of it: each byte plus the prediction from the bytes already restored. */
  function Unfiltered(filter: byte, channels: nat, line: seq<byte>, previous: seq<byte>): (r: seq<byte>)
    requires channels > 0 && |previous| == |line|
    ensures |r| == |line|
  {
    if line == [] then []
    else
      var i := |line| - 1;
      var before := Unfiltered(filter, channels, line[..i], previous[..i]);
      var predictor := Predictor(filter, At(before, i - channels), previous[i], At(previous, i - channels));
      before + [(line[i] as int + predictor as int) % 256]
  }

  lemma AddBack(x: byte, p: byte)
    ensures ((x as int - p as int) % 256 + p as int) % 256 == x
    ensures ((x as int + p as int) % 256 - p as int) % 256 == x
  {
  }

  function FilterByte(filter: byte, channels: nat, before: seq<byte>, x: byte, previous: seq<byte>): byte
    requires channels > 0 && |previous| == |before| + 1
  {
    var i := |before|;
    (x as int - Predictor(filter, At(before, i - channels), previous[i], At(previous, i - channels)) as int) % 256
  }

  function RestoreByte(filter: byte, channels: nat, before: seq<byte>, x: byte, previous: seq<byte>): byte
    requires channels > 0 && |previous| == |before| + 1
  {
    var i := |before|;
    (x as int + Predictor(filter, At(before, i - channels), previous[i], At(previous, i - channels)) as int) % 256
  }

  lemma ByteRestored(filter: byte, channels: nat, before: seq<byte>, x: byte, previous: seq<byte>)
    requires channels > 0 && |previous| == |before| + 1
    ensures RestoreByte(filter, channels, before, FilterByte(filter, channels, before, x, previous), previous) == x
    ensures FilterByte(filter, channels, before, RestoreByte(filter, channels, before, x, previous), previous) == x
  {
    hide Predictor, At;
    var i := |before|;
    AddBack(x, Predictor(filter, At(before, i - channels), previous[i], At(previous, i - channels)));
  }

  lemma FilteredSnoc(filter: byte, channels: nat, row: seq<byte>, x: byte, previous: seq<byte>)
    requires channels > 0 && |previous| == |row| + 1
    ensures Filtered(filter, channels, row + [x], previous)
      == Filtered(filter, channels, row, previous[..|row|]) + [FilterByte(filter, channels, row, x, previous)]
  {
    hide Predictor, At;
    assert (row + [x])[..|row|] == row;
  }

  lemma UnfilteredSnoc(filter: byte, channels: nat, line: seq<byte>, x: byte, previous: seq<byte>)
    requires channels > 0 && |previous| == |line| + 1
    ensures Unfiltered(filter, channels, line + [x], previous)
      == (var before := Unfiltered(filter, channels, line, previous[..|line|]);
          before + [RestoreByte(filter, channels, before, x, previous)])
  {
    hide Predictor, At;
    assert (line + [x])[..|line|] == line;
  }

  lemma {:induction false} UnfilterInvertsFilter(filter: byte, channels: nat, row: seq<byte>, previous: seq<byte>)
    requires channels > 0 && |previous| == |row|
    ensures Unfiltered(filter, channels, Filtered(filter, channels, row, previous), previous) == row
  {
    hide Filtered, Unfiltered, FilterByte, RestoreByte;
    if row != [] {
      var i := |row| - 1;
      var front, x := row[..i], row[i];
      UnfilterInvertsFilter(filter, channels, front, previous[..i]);
      assert row == front + [x];
      FilteredSnoc(filter, channels, front, x, previous);
      var y := FilterByte(filter, channels, front, x, previous);
      UnfilteredSnoc(filter, channels, Filtered(filter, channels, front, previous[..i]), y, previous);
      ByteRestored(filter, channels, front, x, previous);
    }
  }

  lemma {:induction false} FilterInvertsUnfilter(filter: byte, channels: nat, line: seq<byte>, previous: seq<byte>)
    requires channels > 0 && |previous| == |line|
    ensures Filtered(filter, channels, Unfiltered(filter, channels, line, previous), previous) == line
  {
    hide Filtered, Unfiltered, FilterByte, RestoreByte;
    if line != [] {
      var i := |line| - 1;
      var front, x := line[..i], line[i];
      FilterInvertsUnfilter(filter, channels, front, previous[..i]);
      assert line == front + [x];
      UnfilteredSnoc(filter, channels, front, x, previous);
      var before := Unfiltered(filter, channels, front, previous[..i]);
      FilteredSnoc(filter, channels, before, RestoreByte(filter, channels, before, x, previous), previous);
      ByteRestored(filter, channels, before, x, previous);
    }
  }

  // ---- Images ----

  function Zeros(n: nat): (r: seq<byte>)
    ensures |r| == n
  {
    seq(n, _ => 0)
  }

  predicate AllOf(size: nat, rows: seq<seq<byte>>) {
    forall i :: 0 <= i < |rows| ==> |rows[i]| == size
  }

  function LastRow(rows: seq<seq<byte>>, stride: nat): (r: seq<byte>)
    requires AllOf(stride, rows)
    ensures |r| == stride
  {
    if rows == [] then Zeros(stride) else rows[|rows| - 1]
  }

  /** The scan lines of an image: per row the filter chosen for it, then the filtered bytes. */
  function Lines(filters: seq<byte>, channels: nat, stride: nat, rows: seq<seq<byte>>): (r: seq<seq<byte>>)
    requires channels > 0 && |filters| == |rows| && AllOf(stride, rows)
    ensures AllOf(stride + 1, r) && |r| == |rows|
  {
    if rows == [] then []
    else
      var n := |rows| - 1;
      Lines(filters[..n], channels, stride, rows[..n])
      + [[filters[n]] + Filtered(filters[n], channels, rows[n], LastRow(rows[..n], stride))]
  }

  /** The rows of an image; None if some line has no known filter. */
  function Rows(channels: nat, stride: nat, lines: seq<seq<byte>>): (r: Option<seq<seq<byte>>>)
    requires channels > 0 && AllOf(stride + 1, lines)
    ensures r.Some? ==> AllOf(stride, r.value) && |r.value| == |lines|
  {
    if lines == [] then Some([])
    else
      var n := |lines| - 1;
      var before :- Rows(channels, stride, lines[..n]);
      if lines[n][0] > 4 then None
      else Some(before + [Unfiltered(lines[n][0], channels, lines[n][1..], LastRow(before, stride))])
  }

  predicate FiltersOk(filters: seq<byte>) {
    forall i :: 0 <= i < |filters| ==> filters[i] <= 4
  }

  lemma LinesSnoc(filters: seq<byte>, f: byte, channels: nat, stride: nat, rows: seq<seq<byte>>, row: seq<byte>)
    requires channels > 0 && |filters| == |rows| && AllOf(stride, rows) && |row| == stride
    ensures Lines(filters + [f], channels, stride, rows + [row])
      == Lines(filters, channels, stride, rows) + [[f] + Filtered(f, channels, row, LastRow(rows, stride))]
  {
    hide Filtered;
    assert (filters + [f])[..|rows|] == filters && (rows + [row])[..|rows|] == rows;
  }

  lemma RowsSnoc(channels: nat, stride: nat, lines: seq<seq<byte>>, line: seq<byte>)
    requires channels > 0 && AllOf(stride + 1, lines) && |line| == stride + 1
    ensures Rows(channels, stride, lines + [line]) == match Rows(channels, stride, lines)
            case None => None
            case Some(rows) =>
              if line[0] > 4 then None
              else Some(rows + [Unfiltered(line[0], channels, line[1..], LastRow(rows, stride))])
  {
    hide Unfiltered;
    assert (lines + [line])[..|lines|] == lines;
  }

  lemma {:induction false} RowsOfLines(filters: seq<byte>, channels: nat, stride: nat, rows: seq<seq<byte>>)
    requires channels > 0 && |filters| == |rows| && AllOf(stride, rows) && FiltersOk(filters)
    ensures Rows(channels, stride, Lines(filters, channels, stride, rows)) == Some(rows)
  {
    hide Filtered, Unfiltered;
    if rows != [] {
      hide Lines, Rows, LastRow;
      var n := |rows| - 1;
      var f, row := filters[n], rows[n];
      RowsOfLines(filters[..n], channels, stride, rows[..n]);
      var before := Lines(filters[..n], channels, stride, rows[..n]);
      var filtered := Filtered(f, channels, row, LastRow(rows[..n], stride));
      assert filters == filters[..n] + [f] && rows == rows[..n] + [row];
      LinesSnoc(filters[..n], f, channels, stride, rows[..n], row);
      RowsSnoc(channels, stride, before, [f] + filtered);
      assert ([f] + filtered)[1..] == filtered;
      UnfilterInvertsFilter(f, channels, row, LastRow(rows[..n], stride));
    }
  }

  function FiltersOf(lines: seq<seq<byte>>, stride: nat): (r: seq<byte>)
    requires AllOf(stride + 1, lines)
  {
    seq(|lines|, i requires 0 <= i < |lines| => lines[i][0])
  }

  lemma {:induction false} LinesOfRows(channels: nat, stride: nat, lines: seq<seq<byte>>)
    requires channels > 0 && AllOf(stride + 1, lines) && Rows(channels, stride, lines).Some?
    ensures Lines(FiltersOf(lines, stride), channels, stride, Rows(channels, stride, lines).value) == lines
    ensures FiltersOk(FiltersOf(lines, stride))
  {
    hide Filtered, Unfiltered;
    if lines != [] {
      hide Lines, Rows, LastRow;
      var n := |lines| - 1;
      var line := lines[n];
      assert lines == lines[..n] + [line];
      RowsSnoc(channels, stride, lines[..n], line);
      LinesOfRows(channels, stride, lines[..n]);
      var before := Rows(channels, stride, lines[..n]).value;
      var row := Unfiltered(line[0], channels, line[1..], LastRow(before, stride));
      FilterInvertsUnfilter(line[0], channels, line[1..], LastRow(before, stride));
      LinesSnoc(FiltersOf(lines[..n], stride), line[0], channels, stride, before, row);
      assert FiltersOf(lines, stride) == FiltersOf(lines[..n], stride) + [line[0]];
      assert line == [line[0]] + line[1..];
    }
  }

  /**
   * Each accepted scan line sequence is the filtered form of exactly one image, and every image with any filters is
   * accepted.
   */
  lemma FilteringIsUndone(channels: nat, stride: nat, lines: seq<seq<byte>>, rows: seq<seq<byte>>)
    requires channels > 0 && AllOf(stride + 1, lines) && AllOf(stride, rows)
    ensures Rows(channels, stride, lines) == Some(rows) <==>
      exists filters: seq<byte> :: |filters| == |rows| && FiltersOk(filters)
        && Lines(filters, channels, stride, rows) == lines
  {
    hide Rows, Lines;
    if Rows(channels, stride, lines) == Some(rows) {
      LinesOfRows(channels, stride, lines);
      assert |FiltersOf(lines, stride)| == |rows|;
    }
    if filters: seq<byte> :|
      |filters| == |rows| && FiltersOk(filters) && Lines(filters, channels, stride, rows) == lines
    {
      RowsOfLines(filters, channels, stride, rows);
    }
  }

  // ---- Pixels ----

  /** Three bytes and an alpha of 255, for every pixel of an RGB row. */
  function WithAlpha(row: seq<byte>): seq<byte> {
    if |row| < 3 then [] else row[..3] + [255] + WithAlpha(row[3..])
  }

  function RowPixels(channels: nat, row: seq<byte>): seq<byte> {
    if channels == 4 then row else WithAlpha(row)
  }

  function Pixels(channels: nat, rows: seq<seq<byte>>): seq<byte> {
    if rows == [] then [] else Pixels(channels, rows[..|rows| - 1]) + RowPixels(channels, rows[|rows| - 1])
  }

  function Opaque(rows: seq<seq<byte>>): seq<seq<byte>> {
    seq(|rows|, i requires 0 <= i < |rows| => WithAlpha(rows[i]))
  }

  /** An RGB image has the pixels of its RGBA form with alpha 255. */
  lemma {:induction false} RgbIsOpaqueRgba(rows: seq<seq<byte>>)
    ensures Pixels(3, rows) == Pixels(4, Opaque(rows))
  {
    hide WithAlpha;
    if rows != [] {
      var n := |rows| - 1;
      RgbIsOpaqueRgba(rows[..n]);
      assert Opaque(rows)[..n] == Opaque(rows[..n]);
    }
  }

  lemma {:induction false} AlphaAt(row: seq<byte>, k: nat)
    requires |row| % 3 == 0 && 3 * k < |row|
    ensures 4 * |row| == 3 * |WithAlpha(row)|
    ensures WithAlpha(row)[4 * k..4 * k + 4] == row[3 * k..3 * k + 3] + [255]
  {
    if k > 0 {
      AlphaAt(row[3..], k - 1);
      assert row[3..][3 * (k - 1)..3 * (k - 1) + 3] == row[3 * k..3 * k + 3];
      assert WithAlpha(row)[4..] == WithAlpha(row[3..]);
      assert WithAlpha(row)[4 * k..4 * k + 4] == WithAlpha(row[3..])[4 * (k - 1)..4 * (k - 1) + 4];
    } else if |row| > 3 {
      AlphaAt(row[3..], 0);
    }
  }

  // ---- The file ----

  const SIGNATURE: seq<byte> := [0x89, 0x50, 0x4e, 0x47, 0x0d, 0x0a, 0x1a, 0x0a]
  const IDAT: seq<byte> := [73, 68, 65, 84]
  const IHDR: seq<byte> := [73, 72, 68, 82]

  /** data[i:j], cut off at the end as Python does. */
  function Slice(data: seq<byte>, i: nat, j: nat): seq<byte>
    requires i <= j
  {
    if i >= |data| then [] else if j > |data| then data[i..] else data[i..j]
  }

  /** The IDAT bodies from `offset` on; None where a length field is cut short. */
  function Idat(data: seq<byte>, offset: nat): Option<seq<byte>>
    decreases |data| - offset
  {
    if offset >= |data| then Some([])
    else if offset + 4 > |data| then None
    else
      var length := FromU32be(data[offset..offset + 4]);
      var part := if Slice(data, offset + 4, offset + 8) == IDAT then Slice(data, offset + 8, offset + 8 + length)
        else [];
      var more :- Idat(data, offset + length + 12);
      Some(part + more)
  }

  function Cut(raw: seq<byte>, size: nat): (r: seq<seq<byte>>)
    requires size > 0
    ensures AllOf(size, r)
    decreases |raw|
  {
    if |raw| < size then [] else [raw[..size]] + Cut(raw[size..], size)
  }

  datatype Picture = Picture(width: nat, height: nat, pixels: seq<byte>)

  predicate HeaderOk(data: seq<byte>) {
    |data| >= 29 && data[..8] == SIGNATURE && data[24] == 8 && data[28] == 0 && data[25] in {2, 6}
  }

  function Channels(data: seq<byte>): (c: nat)
    requires HeaderOk(data)
    ensures c == 3 || c == 4
  {
    if data[25] == 2 then 3 else 4
  }

  function Stride(width: nat, channels: nat): nat {
    width * channels
  }

  function RawSize(height: nat, stride: nat): nat {
    height * (stride + 1)
  }

  /** Every failed assertion and every exception is None. */
  function Decoded(inflate: seq<byte> -> Option<seq<byte>>, data: seq<byte>): Option<Picture> {
    if !HeaderOk(data) then None
    else
      var width, height := FromU32be(data[16..20]), FromU32be(data[20..24]);
      var stride := Stride(width, Channels(data));
      var compressed :- Idat(data, 8);
      var raw :- inflate(compressed);
      if |raw| != RawSize(height, stride) then None
      else
        var rows :- Rows(Channels(data), stride, Cut(raw, stride + 1));
        Some(Picture(width, height, Pixels(Channels(data), rows)))
  }

  /** What one chunk contributes, and where the next one starts. */
  function ChunkAt(data: seq<byte>, offset: nat): (seq<byte>, nat)
    requires offset + 4 <= |data|
  {
    var length := FromU32be(data[offset..offset + 4]);
    (if Slice(data, offset + 4, offset + 8) == IDAT then Slice(data, offset + 8, offset + 8 + length) else [],
     offset + length + 12)
  }

  method WalkChunks(data: seq<byte>) returns (r: Option<seq<byte>>)
    ensures r == Idat(data, 8)
  {
    hide FromU32be, Slice, Prepended;
    var offset, compressed: seq<byte> := 8, [];
    PrependedNothing(Idat(data, 8));
    while offset < |data|
      invariant Idat(data, 8) == Prepended(compressed, Idat(data, offset))
      decreases |data| - offset
    {
      IdatStep(data, offset, compressed);
      if offset + 4 > |data| {
        return None;
      }
      var length := FromU32be(data[offset..offset + 4]);
      if Slice(data, offset + 4, offset + 8) == IDAT {
        compressed := compressed + Slice(data, offset + 8, offset + 8 + length);
      } else {
        assert compressed == compressed + [];
      }
      offset := offset + length + 12;
    }
    PrependedEnd(compressed);
    r := Some(compressed);
  }

  lemma IdatStep(data: seq<byte>, offset: nat, front: seq<byte>)
    requires offset < |data|
    ensures offset + 4 > |data| ==> Prepended(front, Idat(data, offset)) == None
    ensures offset + 4 <= |data| ==>
      var (part, next) := ChunkAt(data, offset);
      Prepended(front, Idat(data, offset)) == Prepended(front + part, Idat(data, next))
  {
    hide FromU32be, Slice;
    if offset + 4 <= |data| {
      var (part, next) := ChunkAt(data, offset);
      assert Idat(data, offset) == Prepended(part, Idat(data, next));
      PrependedTwice(front, part, Idat(data, next));
    }
  }

  lemma PrependedNothing(p: Option<seq<byte>>)
    ensures Prepended([], p) == p
  {
    if p.Some? {
      assert [] + p.value == p.value;
    }
  }

  lemma PrependedEnd(front: seq<byte>)
    ensures Prepended(front, Some([])) == Some(front)
  {
    assert front + [] == front;
  }

  ghost function Prepended(front: seq<byte>, p: Option<seq<byte>>): Option<seq<byte>> {
    if p.Some? then Some(front + p.value) else None
  }

  lemma PrependedTwice(a: seq<byte>, b: seq<byte>, p: Option<seq<byte>>)
    ensures Prepended(a, Prepended(b, p)) == Prepended(a + b, p)
  {
    if p.Some? {
      assert a + (b + p.value) == (a + b) + p.value;
    }
  }

  /** The inner loop, on the row itself. */
  method UnfilterRow(filter: byte, channels: nat, row: array<byte>, previous: array<byte>)
    requires channels > 0 && row.Length == previous.Length && row != previous
    modifies row
    ensures row[..] == Unfiltered(filter, channels, old(row[..]), previous[..])
  {
    hide Paeth, Unfiltered;
    ghost var line := row[..];
    assert row[..0] == Unfiltered(filter, channels, line[..0], previous[..0]);
    for i := 0 to row.Length
      invariant row[..i] == Unfiltered(filter, channels, line[..i], previous[..i])
      invariant row[i..] == line[i..]
    {
      var a: byte := if i >= channels then row[i - channels] else 0;
      var b := previous[i];
      var c: byte := if i >= channels then previous[i - channels] else 0;
      var predictor: byte;
      if filter == 1 {
        predictor := a;
      } else if filter == 2 {
        predictor := b;
      } else if filter == 3 {
        predictor := (a as int + b as int) / 2;
      } else if filter == 4 {
        predictor := Paeth(a, b, c);
      } else {
        predictor := 0;
      }
      UnfilteredSnoc(filter, channels, line[..i], line[i], previous[..i + 1]);
      assert previous[..i + 1][..i] == previous[..i] && line[..i + 1] == line[..i] + [line[i]];
      assert row[i] == line[i];
      ghost var before := row[..i];
      assert i >= channels ==> row[i - channels] == before[i - channels];
      row[i] := (row[i] as int + predictor as int) % 256;
      assert row[..i] == before && row[..i + 1] == before + [row[i]];
    }
    assert line[..row.Length] == line && previous[..row.Length] == previous[..] && row[..row.Length] == row[..];
  }

  method PushPixels(pixels: seq<byte>, channels: nat, row: array<byte>) returns (r: seq<byte>)
    requires channels == 4 || row.Length % 3 == 0
    ensures r == pixels + RowPixels(channels, row[..])
  {
    if channels == 4 {
      return pixels + row[..];
    }
    r := pixels;
    var i := 0;
    assert row[0..] == row[..];
    while i < row.Length
      invariant 0 <= i <= row.Length && (row.Length - i) % 3 == 0
      invariant r + WithAlpha(row[i..]) == pixels + WithAlpha(row[..])
    {
      assert row[i..][..3] == row[i..i + 3] && row[i..][3..] == row[i + 3..];
      assert r + (row[i..i + 3] + [255] + WithAlpha(row[i + 3..]))
        == r + row[i..i + 3] + [255] + WithAlpha(row[i + 3..]);
      r := r + row[i..i + 3] + [255];
      i := i + 3;
    }
    assert r + [] == r;
  }

  /** Nothing is left over after cutting. */
  predicate Whole(raw: seq<byte>, size: nat)
    requires size > 0
    decreases |raw|
  {
    raw == [] || (|raw| >= size && Whole(raw[size..], size))
  }

  /** The row loop: every line decoded with the row above it, pixels appended as they come. */
  method DecodeRows(channels: nat, stride: nat, raw: seq<byte>) returns (r: Option<seq<byte>>)
    requires channels == 4 || (channels == 3 && stride % 3 == 0)
    requires Whole(raw, stride + 1)
    ensures r == match Rows(channels, stride, Cut(raw, stride + 1))
                 case None => None
                 case Some(rows) => Some(Pixels(channels, rows))
  {
    hide Unfiltered, Cut, Rows, RowPixels, Whole;
    var size := stride + 1;
    ghost var done: seq<seq<byte>>, rows: seq<seq<byte>> := [], [];
    var previous := new byte[stride](_ => 0);
    var pixels: seq<byte>, start := [], 0;
    NoRows(channels, stride);
    assert raw[0..] == raw && [] + Cut(raw, size) == Cut(raw, size);
    while start < |raw|
      invariant 0 <= start <= |raw| && Whole(raw[start..], size)
      invariant AllOf(size, done) && Cut(raw, size) == done + Cut(raw[start..], size)
      invariant Rows(channels, stride, done) == Some(rows) && pixels == Pixels(channels, rows)
      invariant previous.Length == stride && previous[..] == LastRow(rows, stride)
      decreases |raw| - start
    {
      NextLine(raw, size, start);
      var filter := raw[start];
      var row := new byte[stride](i requires 0 <= i < stride => raw[start + 1 + i]);
      ghost var line := raw[start..start + size];
      assert row[..] == line[1..];
      RowsSnoc(channels, stride, done, line);
      assert done + ([line] + Cut(raw[start + size..], size)) == (done + [line]) + Cut(raw[start + size..], size);
      if filter > 4 {
        BadLine(channels, stride, done + [line], Cut(raw[start + size..], size));
        return None;
      }
      UnfilterRow(filter, channels, row, previous);
      pixels := PushPixels(pixels, channels, row);
      assert (rows + [row[..]])[..|rows|] == rows;
      done, rows := done + [line], rows + [row[..]];
      previous, start := row, start + size;
    }
    NoMoreLines(raw, size, start);
    assert done + [] == done;
    r := Some(pixels);
  }

  lemma NoRows(channels: nat, stride: nat)
    requires channels > 0
    ensures Rows(channels, stride, []) == Some([])
  {
  }

  lemma NextLine(raw: seq<byte>, size: nat, start: nat)
    requires size > 0 && start < |raw| && Whole(raw[start..], size)
    ensures start + size <= |raw| && Whole(raw[start + size..], size)
    ensures Cut(raw[start..], size) == [raw[start..start + size]] + Cut(raw[start + size..], size)
  {
    assert raw[start..][size..] == raw[start + size..] && raw[start..][..size] == raw[start..start + size];
  }

  lemma NoMoreLines(raw: seq<byte>, size: nat, start: nat)
    requires size > 0 && start == |raw|
    ensures Cut(raw[start..], size) == []
  {
  }

  lemma {:induction false} BadLine(channels: nat, stride: nat, a: seq<seq<byte>>, b: seq<seq<byte>>)
    requires channels > 0 && AllOf(stride + 1, a) && AllOf(stride + 1, b) && Rows(channels, stride, a).None?
    ensures Rows(channels, stride, a + b).None?
    decreases |b|
  {
    hide Unfiltered;
    if b == [] {
      assert a + b == a;
    } else {
      var front, last := b[..|b| - 1], b[|b| - 1];
      BadLine(channels, stride, a, front);
      RowsSnoc(channels, stride, a + front, last);
      assert a + b == (a + front) + [last];
    }
  }

  /** h lines of one size are cut into exactly h. */
  lemma {:induction false} WholeLines(raw: seq<byte>, size: nat, h: nat)
    requires size > 0 && |raw| == h * size
    ensures Whole(raw, size) && |Cut(raw, size)| == h
    decreases h
  {
    if h > 0 {
      assert h * size == (h - 1) * size + size;
      assert (h - 1) * size >= 0;
      WholeLines(raw[size..], size, h - 1);
    }
  }

  method RgbaPixels(inflate: seq<byte> -> Option<seq<byte>>, data: seq<byte>) returns (r: Option<Picture>)
    ensures r == Decoded(inflate, data)
  {
    hide Idat, Rows, Pixels, FromU32be, Cut, Stride, RawSize, HeaderOk, Channels;
    if !HeaderOk(data) {
      return None;
    }
    HeaderIsLong(data);
    var width, height := FromU32be(data[16..20]), FromU32be(data[20..24]);
    var channels := Channels(data);
    var compressed := WalkChunks(data);
    if compressed.None? {
      return None;
    }
    var raw := inflate(compressed.value);
    var stride := Stride(width, channels);
    if raw.None? || |raw.value| != RawSize(height, stride) {
      return None;
    }
    RawIsWhole(raw.value, height, stride);
    StrideOfThree(width);
    var pixels := DecodeRows(channels, stride, raw.value);
    if pixels.None? {
      return None;
    }
    r := Some(Picture(width, height, pixels.value));
  }

  lemma HeaderIsLong(data: seq<byte>)
    requires HeaderOk(data)
    ensures |data| >= 29
  {
  }

  lemma RawIsWhole(raw: seq<byte>, height: nat, stride: nat)
    requires |raw| == RawSize(height, stride)
    ensures Whole(raw, stride + 1)
  {
    WholeLines(raw, stride + 1, height);
  }

  lemma StrideOfThree(width: nat)
    ensures Stride(width, 3) % 3 == 0
  {
  }

  // ---- A file written with any chunks and any filters reads back ----

  datatype Chunk = Chunk(kind: seq<byte>, body: seq<byte>, crc: seq<byte>)

  predicate ChunkOk(c: Chunk) {
    |c.kind| == 4 && |c.crc| == 4 && |c.body| <= U32_MAX
  }

  function PrintChunk(c: Chunk): seq<byte>
    requires ChunkOk(c)
  {
    U32be(|c.body|) + (c.kind + (c.body + c.crc))
  }

  predicate AllOk(chunks: seq<Chunk>) {
    forall i :: 0 <= i < |chunks| ==> ChunkOk(chunks[i])
  }

  function PrintChunks(chunks: seq<Chunk>): seq<byte>
    requires AllOk(chunks)
  {
    if chunks == [] then [] else PrintChunk(chunks[0]) + PrintChunks(chunks[1..])
  }

  function IdatBodies(chunks: seq<Chunk>): seq<byte> {
    if chunks == [] then [] else (if chunks[0].kind == IDAT then chunks[0].body else []) + IdatBodies(chunks[1..])
  }

  lemma ChunkIsFound(front: seq<byte>, c: Chunk, rest: seq<byte>)
    requires ChunkOk(c)
    ensures var data, offset := front + (PrintChunk(c) + rest), |front|;
      && offset + 4 <= |data|
      && ChunkAt(data, offset) == (if c.kind == IDAT then c.body else [], offset + |PrintChunk(c)|)
  {
    hide U32be, FromU32be;
    var data, offset, n := front + (PrintChunk(c) + rest), |front|, |c.body|;
    U32RoundTrip(n);
    assert data[offset..offset + 4] == U32be(n);
    assert data[offset + 4..offset + 8] == c.kind;
    assert data[offset + 8..offset + 8 + n] == c.body;
  }

  lemma OneChunk(front: seq<byte>, c: Chunk, rest: seq<byte>)
    requires ChunkOk(c)
    ensures var next := front + PrintChunk(c);
      Idat(front + (PrintChunk(c) + rest), |front|)
      == Prepended(if c.kind == IDAT then c.body else [], Idat(next + rest, |next|))
  {
    hide PrintChunk, ChunkAt, Prepended, Idat;
    var data := front + (PrintChunk(c) + rest);
    ChunkIsFound(front, c, rest);
    ChunkIsLong(c);
    IdatStep(data, |front|, []);
    PrependedNothing(Idat(data, |front|));
    assert data == (front + PrintChunk(c)) + rest;
    var part: seq<byte> := if c.kind == IDAT then c.body else [];
    assert [] + part == part;
  }

  lemma {:induction false} WalkFindsBodies(front: seq<byte>, chunks: seq<Chunk>)
    requires AllOk(chunks)
    ensures Idat(front + PrintChunks(chunks), |front|) == Some(IdatBodies(chunks))
    decreases |chunks|
  {
    hide PrintChunk;
    if chunks != [] {
      hide Idat;
      OneChunk(front, chunks[0], PrintChunks(chunks[1..]));
      WalkFindsBodies(front + PrintChunk(chunks[0]), chunks[1..]);
    } else {
      assert front + PrintChunks(chunks) == front;
    }
  }

  lemma ChunkIsLong(c: Chunk)
    requires ChunkOk(c)
    ensures |PrintChunk(c)| >= 12
  {
  }

  function HeaderChunk(width: nat, height: nat, colour: byte, crc: seq<byte>): Chunk
    requires width <= U32_MAX && height <= U32_MAX
  {
    Chunk(IHDR, U32be(width) + (U32be(height) + [8, colour, 0, 0, 0]), crc)
  }

  lemma HeaderIsRead(width: nat, height: nat, colour: byte, crc: seq<byte>, rest: seq<byte>)
    requires width <= U32_MAX && height <= U32_MAX && colour in {2, 6} && |crc| == 4
    ensures var data := SIGNATURE + (PrintChunk(HeaderChunk(width, height, colour, crc)) + rest);
      && HeaderOk(data) && Channels(data) == (if colour == 2 then 3 else 4)
      && FromU32be(data[16..20]) == width && FromU32be(data[20..24]) == height
  {
    hide U32be, FromU32be;
    var c := HeaderChunk(width, height, colour, crc);
    var data := SIGNATURE + (PrintChunk(c) + rest);
    var tail: seq<byte> := [8, colour, 0, 0, 0];
    assert |SIGNATURE| == 8 && |c.body| == 13;
    assert data[..8] == SIGNATURE;
    assert data[16..20] == U32be(width) && data[20..24] == U32be(height);
    assert data[24..29] == tail;
    assert data[24] == data[24..29][0] && data[25] == data[24..29][1] && data[28] == data[24..29][4];
    U32RoundTrip(width);
    U32RoundTrip(height);
  }

  function Concat(lines: seq<seq<byte>>): seq<byte> {
    if lines == [] then [] else lines[0] + Concat(lines[1..])
  }

  lemma {:induction false} CutOfConcat(lines: seq<seq<byte>>, size: nat)
    requires size > 0 && AllOf(size, lines)
    ensures Cut(Concat(lines), size) == lines && |Concat(lines)| == |lines| * size
    decreases |lines|
  {
    if lines != [] {
      CutOfConcat(lines[1..], size);
      assert Concat(lines)[..size] == lines[0] && Concat(lines)[size..] == Concat(lines[1..]);
      assert |lines| * size == (|lines| - 1) * size + size;
    }
  }

  lemma DecodedFromParts(
    inflate: seq<byte> -> Option<seq<byte>>, data: seq<byte>, channels: nat, compressed: seq<byte>, raw: seq<byte>,
    rows: seq<seq<byte>>)
    requires HeaderOk(data) && Channels(data) == channels && |data| >= 29
    requires Idat(data, 8) == Some(compressed) && inflate(compressed) == Some(raw)
    requires var stride := Stride(FromU32be(data[16..20]), channels);
      |raw| == RawSize(FromU32be(data[20..24]), stride) && Rows(channels, stride, Cut(raw, stride + 1)) == Some(rows)
    ensures Decoded(inflate, data)
      == Some(Picture(FromU32be(data[16..20]), FromU32be(data[20..24]), Pixels(channels, rows)))
  {
    hide HeaderOk, Channels, FromU32be, Idat, Rows, Cut, Stride, RawSize, Pixels;
  }

  lemma LinesReadBack(channels: nat, stride: nat, filters: seq<byte>, rows: seq<seq<byte>>)
    requires channels > 0 && |rows| == |filters| && AllOf(stride, rows) && FiltersOk(filters)
    ensures var raw := Concat(Lines(filters, channels, stride, rows));
      |raw| == RawSize(|rows|, stride) && Rows(channels, stride, Cut(raw, stride + 1)) == Some(rows)
  {
    hide Rows, Lines, Cut;
    CutOfConcat(Lines(filters, channels, stride, rows), stride + 1);
    RowsOfLines(filters, channels, stride, rows);
  }

  function FileOf(width: nat, height: nat, colour: byte, crc: seq<byte>, chunks: seq<Chunk>): seq<byte>
    requires width <= U32_MAX && height <= U32_MAX && |crc| == 4 && AllOk(chunks)
  {
    SIGNATURE + (PrintChunk(HeaderChunk(width, height, colour, crc)) + PrintChunks(chunks))
  }

  lemma FileHoldsBodies(width: nat, height: nat, colour: byte, crc: seq<byte>, chunks: seq<Chunk>)
    requires width <= U32_MAX && height <= U32_MAX && |crc| == 4 && AllOk(chunks)
    ensures Idat(FileOf(width, height, colour, crc, chunks), 8) == Some(IdatBodies(chunks))
  {
    hide PrintChunk, Idat;
    var all := [HeaderChunk(width, height, colour, crc)] + chunks;
    assert all[1..] == chunks;
    WalkFindsBodies(SIGNATURE, all);
    assert |SIGNATURE| == 8;
    assert IHDR[0] != IDAT[0] || IHDR[1] != IDAT[1];
    assert IdatBodies(all) == [] + IdatBodies(chunks) == IdatBodies(chunks);
  }

  /** Whatever the width, height, colour type, filters and chunk layout: the pixels that went in come out. */
  lemma ImageReadsBack(
    inflate: seq<byte> -> Option<seq<byte>>, width: nat, height: nat, colour: byte, crc: seq<byte>, chunks: seq<Chunk>,
    filters: seq<byte>, rows: seq<seq<byte>>, channels: nat)
    requires width <= U32_MAX && height <= U32_MAX && |crc| == 4 && AllOk(chunks)
    requires (colour == 2 && channels == 3) || (colour == 6 && channels == 4)
    requires |rows| == height == |filters| && AllOf(Stride(width, channels), rows) && FiltersOk(filters)
    requires inflate(IdatBodies(chunks)) == Some(Concat(Lines(filters, channels, Stride(width, channels), rows)))
    ensures Decoded(inflate, FileOf(width, height, colour, crc, chunks))
      == Some(Picture(width, height, Pixels(channels, rows)))
  {
    hide FromU32be, PrintChunk, PrintChunks, HeaderOk, Channels, Idat, Rows, Lines, Cut, Stride, RawSize, Pixels,
      Concat, IdatBodies, HeaderChunk;
    var data := FileOf(width, height, colour, crc, chunks);
    HeaderIsRead(width, height, colour, crc, PrintChunks(chunks));
    HeaderIsLong(data);
    FileHoldsBodies(width, height, colour, crc, chunks);
    LinesReadBack(channels, Stride(width, channels), filters, rows);
    DecodedFromParts(inflate, data, channels, IdatBodies(chunks),
      Concat(Lines(filters, channels, Stride(width, channels), rows)), rows);
  }
}
