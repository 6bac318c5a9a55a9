// The chunk scan of a PNG file and the whole decode (decodePngToLuma in pngLuma.ts).
module PngFile {
  import opened Events
  import opened Bytes
  import opened PngLuma

  const SIGNATURE: seq<Byte> := [0x89, 0x50, 0x4e, 0x47, 0x0d, 0x0a, 0x1a, 0x0a]
  const IHDR: seq<Byte> := [0x49, 0x48, 0x44, 0x52]
  const IDAT: seq<Byte> := [0x49, 0x44, 0x41, 0x54]
  const IEND: seq<Byte> := [0x49, 0x45, 0x4e, 0x44]

  // ---- 32-bit big-endian numbers ----

  function ReadBE(b: seq<Byte>, at: nat): nat
    requires at + 4 <= |b|
  {
    ((b[at] as int * 256 + b[at + 1]) * 256 + b[at + 2]) * 256 + b[at + 3]
  }

  function WriteBE(n: nat): (r: seq<Byte>)
    requires n < 0x1_0000_0000
    ensures |r| == 4
  {
    [n / 0x100_0000, n / 0x1_0000 % 256, n / 256 % 256, n % 256]
  }

  lemma BERoundTrip(n: nat)
    requires n < 0x1_0000_0000
    ensures ReadBE(WriteBE(n), 0) == n
  {
    assert n / 256 / 256 == n / 0x1_0000 && n / 0x1_0000 / 256 == n / 0x100_0000;
  }

  // ---- the scan ----

  datatype Header = Header(width: nat, height: nat, depth: Byte, color: Byte, interlace: Byte)

  // What the scan has gathered; a header chunk too short to read makes the decoder throw.
  datatype Scanned = Scanned(header: Header, idat: seq<Byte>, short: bool)

  const NOTHING: Scanned := Scanned(Header(0, 0, 0, 0, 0), [], false)

  datatype Chunk = Chunk(kind: seq<Byte>, data: seq<Byte>, crc: seq<Byte>)

  function ByteAt(b: seq<Byte>, k: nat): Byte { if k < |b| then b[k] else 0 }

  // Decoding the kind as ASCII drops the top bit of each byte.
  function Ascii(kind: seq<Byte>): (r: seq<Byte>)
    ensures |r| == |kind|
    ensures (forall i :: 0 <= i < |kind| ==> kind[i] < 128) ==> r == kind
  {
    seq(|kind|, i requires 0 <= i < |kind| => kind[i] % 128)
  }

  // One chunk's effect; IEND and an unreadable header stop the scan.
  function Gather(s: Scanned, kind: seq<Byte>, data: seq<Byte>): Scanned {
    if kind == IHDR then
      if |data| < 8 then s.(short := true)
      else s.(header := Header(ReadBE(data, 0), ReadBE(data, 4), ByteAt(data, 8), ByteAt(data, 9), ByteAt(data, 12)))
    else if kind == IDAT then s.(idat := s.idat + data)
    else s
  }

  predicate Stops(s: Scanned, kind: seq<Byte>) { s.short || kind == IEND }

  // data is cut short by the end of the file.
  function DataAt(buf: seq<Byte>, start: nat, len: nat): seq<Byte>
    requires start <= |buf|
  {
    if start + len <= |buf| then buf[start..start + len] else buf[start..]
  }

  function ScanFrom(buf: seq<Byte>, pos: nat, s: Scanned): Scanned
    decreases |buf| - pos
  {
    if pos + 8 > |buf| then s
    else
      var len, kind := ReadBE(buf, pos), Ascii(buf[pos + 4..pos + 8]);
      var t := Gather(s, kind, DataAt(buf, pos + 8, len));
      if Stops(t, kind) then t else ScanFrom(buf, pos + 12 + len, t)
  }

  method Scan(buf: seq<Byte>) returns (s: Scanned)
    ensures s == ScanFrom(buf, 8, NOTHING)
  {
    hide ScanFrom, ReadBE;
    s := NOTHING;
    var pos := 8;
    while pos + 8 <= |buf|
      invariant ScanFrom(buf, 8, NOTHING) == ScanFrom(buf, pos, s)
      decreases |buf| - pos
    {
      ScanStep(buf, pos, s);
      var len := ReadBE(buf, pos);
      var kind := Ascii(buf[pos + 4..pos + 8]);
      var data := DataAt(buf, pos + 8, len);
      if kind == IHDR {
        if |data| < 8 {
          s := s.(short := true);
          return;
        }
        s := s.(header := Header(ReadBE(data, 0), ReadBE(data, 4), ByteAt(data, 8), ByteAt(data, 9), ByteAt(data, 12)));
      } else if kind == IDAT {
        s := s.(idat := s.idat + data);
      }
      if Stops(s, kind) { return; }
      pos := pos + 12 + len;
    }
    ScanEnds(buf, pos, s);
  }

  lemma ScanStep(buf: seq<Byte>, pos: nat, s: Scanned)
    requires pos + 8 <= |buf|
    ensures var len, kind := ReadBE(buf, pos), Ascii(buf[pos + 4..pos + 8]);
            var t := Gather(s, kind, DataAt(buf, pos + 8, len));
            ScanFrom(buf, pos, s) == if Stops(t, kind) then t else ScanFrom(buf, pos + 12 + len, t)
  {
    hide ReadBE, Gather, DataAt;
  }

  lemma ScanEnds(buf: seq<Byte>, pos: nat, s: Scanned)
    requires pos + 8 > |buf|
    ensures ScanFrom(buf, pos, s) == s
  { }

  // ---- what the scan makes of a well-formed file ----

  predicate WellFormed(c: Chunk) { |c.kind| == 4 && |c.crc| == 4 && |c.data| < 0x1_0000_0000 }

  function Encoded(c: Chunk): seq<Byte>
    requires WellFormed(c)
  {
    WriteBE(|c.data|) + c.kind + c.data + c.crc
  }

  function EncodedAll(chunks: seq<Chunk>): seq<Byte>
    requires forall k :: 0 <= k < |chunks| ==> WellFormed(chunks[k])
  {
    if chunks == [] then [] else Encoded(chunks[0]) + EncodedAll(chunks[1..])
  }

  // The chunks in order, up to the first that stops the scan.
  function Fold(chunks: seq<Chunk>, s: Scanned): Scanned {
    if chunks == [] then s
    else
      var t := Gather(s, Ascii(chunks[0].kind), chunks[0].data);
      if Stops(t, Ascii(chunks[0].kind)) then t else Fold(chunks[1..], t)
  }

  lemma ScanOne(head: seq<Byte>, c: Chunk, rest: seq<Byte>, s: Scanned)
    requires WellFormed(c)
    ensures var t := Gather(s, Ascii(c.kind), c.data);
            ScanFrom(head + Encoded(c) + rest, |head|, s)
              == if Stops(t, Ascii(c.kind)) then t else ScanFrom(head + Encoded(c) + rest, |head + Encoded(c)|, t)
  {
    hide ScanFrom, Gather, Stops, WriteBE, ReadBE, Ascii;
    var buf := head + Encoded(c) + rest;
    ChunkReads(head, c, rest);
    ScanStep(buf, |head|, s);
  }

  // A chunk's three parts are where the scan looks for them.
  lemma ChunkReads(head: seq<Byte>, c: Chunk, rest: seq<Byte>)
    requires WellFormed(c)
    ensures var buf, pos := head + Encoded(c) + rest, |head|;
            && |head + Encoded(c)| == pos + 12 + |c.data| && pos + 12 + |c.data| <= |buf|
            && ReadBE(buf, pos) == |c.data| && buf[pos + 4..pos + 8] == c.kind &&
              DataAt(buf, pos + 8, |c.data|) == c.data
  {
    hide ReadBE, WriteBE;
    var buf, pos := head + Encoded(c) + rest, |head|;
    BERoundTrip(|c.data|);
    assert buf[pos..pos + 4] == WriteBE(|c.data|);
    ReadBEOfSlice(buf, pos);
    assert buf[pos + 4..pos + 8] == c.kind;
    assert buf[pos + 8..pos + 8 + |c.data|] == c.data;
  }

  lemma ReadBEOfSlice(b: seq<Byte>, at: nat)
    requires at + 4 <= |b|
    ensures ReadBE(b, at) == ReadBE(b[at..at + 4], 0)
  { }

  lemma {:induction false} ScanFolds(head: seq<Byte>, chunks: seq<Chunk>, s: Scanned)
    requires forall k :: 0 <= k < |chunks| ==> WellFormed(chunks[k])
    ensures ScanFrom(head + EncodedAll(chunks), |head|, s) == Fold(chunks, s)
    decreases |chunks|
  {
    hide ScanFrom, Gather, Stops, Encoded, Ascii;
    if chunks == [] {
      assert head + EncodedAll(chunks) == head;
      ScanEnds(head, |head|, s);
    } else {
      var c := chunks[0];
      assert WellFormed(c);
      assert head + EncodedAll(chunks) == head + Encoded(c) + EncodedAll(chunks[1..]);
      ScanOne(head, c, EncodedAll(chunks[1..]), s);
      ScanFolds(head + Encoded(c), chunks[1..], Gather(s, Ascii(c.kind), c.data));
    }
  }

  // ---- splitting the stream ----

  function Joined(parts: seq<seq<Byte>>): seq<Byte> {
    if parts == [] then [] else parts[0] + Joined(parts[1..])
  }

  function DataChunks(parts: seq<seq<Byte>>): seq<Chunk> {
    if parts == [] then [] else [Chunk(IDAT, parts[0], [0, 0, 0, 0])] + DataChunks(parts[1..])
  }

  lemma {:induction false} FoldData(parts: seq<seq<Byte>>, rest: seq<Chunk>, s: Scanned)
    requires !s.short
    ensures Fold(DataChunks(parts) + rest, s) == Fold(rest, s.(idat := s.idat + Joined(parts)))
    decreases |parts|
  {
    hide Fold;
    if parts == [] {
      assert DataChunks(parts) + rest == rest && s.idat + Joined(parts) == s.idat;
    } else {
      var t := s.(idat := s.idat + parts[0]);
      FirstDataChunk(parts, rest);
      FoldOne(parts[0], DataChunks(parts[1..]) + rest, s);
      FoldData(parts[1..], rest, t);
      JoinFirst(parts, s.idat);
    }
  }

  lemma FirstDataChunk(parts: seq<seq<Byte>>, rest: seq<Chunk>)
    requires parts != []
    ensures DataChunks(parts) + rest == [Chunk(IDAT, parts[0], [0, 0, 0, 0])] + (DataChunks(parts[1..]) + rest)
  { }

  lemma JoinFirst(parts: seq<seq<Byte>>, head: seq<Byte>)
    requires parts != []
    ensures head + parts[0] + Joined(parts[1..]) == head + Joined(parts)
  { }

  lemma FoldOne(data: seq<Byte>, rest: seq<Chunk>, s: Scanned)
    requires !s.short
    ensures Fold([Chunk(IDAT, data, [0, 0, 0, 0])] + rest, s) == Fold(rest, s.(idat := s.idat + data))
  {
    var c := Chunk(IDAT, data, [0, 0, 0, 0]);
    assert ([c] + rest)[1..] == rest;
  }

  lemma {:induction false} DataChunksAreWellFormed(parts: seq<seq<Byte>>)
    requires forall k :: 0 <= k < |parts| ==> |parts[k]| < 0x1_0000_0000
    ensures forall k :: 0 <= k < |DataChunks(parts)| ==> WellFormed(DataChunks(parts)[k])
  {
    if parts != [] { DataChunksAreWellFormed(parts[1..]); }
  }

  // A file: the signature, the header, the stream cut into any number of IDAT chunks, the end.
  function FileOf(header: seq<Byte>, parts: seq<seq<Byte>>): seq<Byte>
    requires |header| == 13 && forall k :: 0 <= k < |parts| ==> |parts[k]| < 0x1_0000_0000
  {
    DataChunksAreWellFormed(parts);
    SIGNATURE + EncodedAll([Chunk(IHDR, header, [0, 0, 0, 0])] + (DataChunks(parts) + [Chunk(IEND, [], [0, 0, 0, 0])]))
  }

  lemma FileStarts(header: seq<Byte>, parts: seq<seq<Byte>>)
    requires |header| == 13 && forall k :: 0 <= k < |parts| ==> |parts[k]| < 0x1_0000_0000
    ensures SIGNATURE <= FileOf(header, parts)
  { }

  // However the stream is split, the scan gathers the header and the whole stream.
  lemma SplitDoesNotMatter(header: seq<Byte>, parts: seq<seq<Byte>>)
    requires |header| == 13 && forall k :: 0 <= k < |parts| ==> |parts[k]| < 0x1_0000_0000
    ensures ScanFrom(FileOf(header, parts), 8, NOTHING)
         == Scanned(Header(ReadBE(header, 0), ReadBE(header, 4), header[8], header[9], header[12]), Joined(parts),
                    false)
  {
    hide ReadBE, ScanFrom, EncodedAll, Fold, DataChunks;
    var first, last := Chunk(IHDR, header, [0, 0, 0, 0]), Chunk(IEND, [], [0, 0, 0, 0]);
    DataChunksAreWellFormed(parts);
    ScanFolds(SIGNATURE, [first] + (DataChunks(parts) + [last]), NOTHING);
    FoldHeader(header, DataChunks(parts) + [last]);
    FoldData(parts, [last], Gather(NOTHING, IHDR, header));
    FoldEnd(Gather(NOTHING, IHDR, header).(idat := [] + Joined(parts)));
    assert [] + Joined(parts) == Joined(parts);
  }

  lemma FoldHeader(header: seq<Byte>, rest: seq<Chunk>)
    requires |header| == 13
    ensures Fold([Chunk(IHDR, header, [0, 0, 0, 0])] + rest, NOTHING) == Fold(rest, Gather(NOTHING, IHDR, header))
    ensures Gather(NOTHING, IHDR, header)
         == Scanned(Header(ReadBE(header, 0), ReadBE(header, 4), header[8], header[9], header[12]), [], false)
  {
    hide ReadBE;
    assert ([Chunk(IHDR, header, [0, 0, 0, 0])] + rest)[1..] == rest;
  }

  lemma FoldEnd(s: Scanned)
    requires !s.short
    ensures Fold([Chunk(IEND, [], [0, 0, 0, 0])], s) == s
  { }

  // ---- the whole decode ----

  datatype Image = Image(luma: seq<Byte>, width: nat, height: nat)

  function Channels(color: Byte): nat {
    match color
    case 0 => 1
    case 2 => 3
    case 4 => 2
    case 6 => 4
    case _ => 0
  }

  // Rec. 601 luma, rounded half up.
  function LumaOf(pixels: seq<Byte>, channels: nat, o: nat): Byte {
    if channels <= 2 then ByteAt(pixels, o)
    else (0.299 * ByteAt(pixels, o) as real + 0.587 * ByteAt(pixels, o + 1) as real
          + 0.114 * ByteAt(pixels, o + 2) as real + 0.5).Floor % 256
  }

  // Every pixel's luma. The loop's y * stride + x * bpp is (y * width + x) * channels.
  function LumaPlane(pixels: seq<Byte>, channels: nat, n: nat): (r: seq<Byte>)
    ensures |r| == n
  {
    if n == 0 then [] else LumaPlane(pixels, channels, n - 1) + [LumaOf(pixels, channels, (n - 1) * channels)]
  }

  function Times(a: nat, b: nat): (r: nat)
    ensures r == a * b
  {
    a * b
  }

  function Decoded(buf: seq<Byte>, inflate: seq<Byte> -> Option<seq<Byte>>): Option<Image> {
    if !(SIGNATURE <= buf) then None
    else
      var s := ScanFrom(buf, 8, NOTHING);
      var channels := Channels(s.header.color);
      if s.short || s.header.depth != 8 || s.header.interlace != 0 then None
      else if channels == 0 || s.header.width == 0 || s.header.height == 0 then None
      else
        var raw := inflate(s.idat);
        if raw.None? then None
        else
          var pixels := UnfilterImage(raw.value, Times(s.header.width, channels), channels, s.header.height);
          if pixels.None? then None
          else Some(Image(LumaPlane(pixels.value, channels, Times(s.header.width, s.header.height)), s.header.width,
                          s.header.height))
  }

  method DecodePngToLuma(buf: seq<Byte>, inflate: seq<Byte> -> Option<seq<Byte>>) returns (image: Option<Image>)
    ensures image == Decoded(buf, inflate)
  {
    hide ScanFrom, UnfilterImage, LumaPlane;
    if !(SIGNATURE <= buf) { return None; }
    var s := Scan(buf);
    if s.short || s.header.depth != 8 || s.header.interlace != 0 { return None; }
    var channels := Channels(s.header.color);
    if channels == 0 || s.header.width == 0 || s.header.height == 0 { return None; }
    var raw := inflate(s.idat);
    if raw.None? { return None; }
    var ok, out := Unfilter(raw.value, Times(s.header.width, channels), channels, s.header.height);
    if !ok { return None; }
    var luma := Luma(out, channels, s.header.width, s.header.height);
    image := Some(Image(luma[..], s.header.width, s.header.height));
  }

  method Luma(out: array<Byte>, channels: nat, width: nat, height: nat) returns (luma: array<Byte>)
    ensures fresh(luma) && luma[..] == LumaPlane(out[..], channels, width * height)
  {
    hide LumaPlane;
    ghost var pixels := out[..];
    Monotone(0, height, width);
    luma := new Byte[width * height](i => 0);
    LumaPlaneStarts(pixels, channels);
    assert luma[..0] == [];
    var y := 0;
    while y < height
      invariant 0 <= y <= height && 0 <= y * width <= luma.Length == width * height
      invariant luma[..y * width] == LumaPlane(pixels, channels, y * width) && out[..] == pixels
    {
      RowFits(y, height, width);
      LumaRow(out, channels, y * width, width, luma);
      y := y + 1;
    }
    assert luma[..width * height] == luma[..];
  }

  method LumaRow(out: array<Byte>, channels: nat, start: nat, width: nat, luma: array<Byte>)
    requires start + width <= luma.Length && luma != out
    requires luma[..start] == LumaPlane(out[..], channels, start)
    modifies luma
    ensures luma[..start + width] == LumaPlane(out[..], channels, start + width)
  {
    hide LumaPlane, LumaOf;
    ghost var pixels := out[..];
    var x := 0;
    while x < width
      invariant 0 <= x <= width && out[..] == pixels
      invariant luma[..start + x] == LumaPlane(pixels, channels, start + x)
    {
      LumaPlaneStep(pixels, channels, start + x);
      ghost var before := luma[..start + x];
      luma[start + x] := LumaOf(out[..], channels, (start + x) * channels);
      assert luma[..start + x] == before;
      assert luma[..start + x + 1] == luma[..start + x] + [luma[start + x]];
      x := x + 1;
    }
  }

  lemma LumaPlaneStarts(pixels: seq<Byte>, channels: nat)
    ensures LumaPlane(pixels, channels, 0) == []
  { }

  lemma LumaPlaneStep(pixels: seq<Byte>, channels: nat, n: nat)
    ensures LumaPlane(pixels, channels, n + 1)
              == LumaPlane(pixels, channels, n) + [LumaOf(pixels, channels, n * channels)]
  { }

  // The stream inflates to the image's rows, filtered one way or another, and the header says
  // how large and of what form the image is.
  ghost predicate Encodes(header: seq<Byte>, pixels: seq<Byte>, filters: seq<Byte>, stream: seq<Byte>,
                          inflate: seq<Byte> -> Option<seq<Byte>>)
    requires |header| == 13
  {
    var width, height, channels := ReadBE(header, 0), ReadBE(header, 4), Channels(header[9]);
    var stride := width * channels;
    && header[8] == 8 && header[12] == 0 && channels > 0 && width > 0 && height > 0
    && |filters| >= height && height * stride == |pixels|
    && (forall y :: 0 <= y < height ==> filters[y] <= 4)
    && inflate(stream) == Some(FilterImage(pixels, filters, stride, channels, height))
  }

  // Encoding an image with any filters and any split of the stream, then decoding it, gives
  // back the luma of the very pixels that were encoded.
  lemma DecodeInvertsEncode(header: seq<Byte>, pixels: seq<Byte>, filters: seq<Byte>, stream: seq<Byte>,
                            parts: seq<seq<Byte>>, inflate: seq<Byte> -> Option<seq<Byte>>)
    requires |header| == 13 && forall k :: 0 <= k < |parts| ==> |parts[k]| < 0x1_0000_0000
    requires Encodes(header, pixels, filters, stream, inflate) && Joined(parts) == stream
    ensures var width, height, channels := ReadBE(header, 0), ReadBE(header, 4), Channels(header[9]);
            Decoded(FileOf(header, parts), inflate)
              == Some(Image(LumaPlane(pixels, channels, width * height), width, height))
  {
    hide ScanFrom, UnfilterImage, FilterImage, LumaPlane, EncodedAll, FileOf, ReadBE;
    assert SIGNATURE <= FileOf(header, parts) by { FileStarts(header, parts); }
    var width, height, channels := ReadBE(header, 0), ReadBE(header, 4), Channels(header[9]);
    SplitDoesNotMatter(header, parts);
    UnfilterInvertsFilter(pixels, filters, width * channels, channels, height);
    assert pixels[..height * (width * channels)] == pixels;
  }

  // ---- what the luma is ----

  // Nearest to 0.299 red + 0.587 green + 0.114 blue, the larger of two equally near; of a grey
  // image the grey itself.
  ghost predicate IsLuma(pixels: seq<Byte>, channels: nat, k: nat, v: Byte) {
    var o := k * channels;
    if channels <= 2 then v == ByteAt(pixels, o)
    else
      var sum: int := 299 * ByteAt(pixels, o) + 587 * ByteAt(pixels, o + 1) + 114 * ByteAt(pixels, o + 2);
      1000 * v - 500 <= sum < 1000 * v + 500
  }

  lemma LumaIsNearest(pixels: seq<Byte>, channels: nat, k: nat)
    ensures IsLuma(pixels, channels, k, LumaOf(pixels, channels, k * channels))
  {
    var o := k * channels;
    if channels > 2 {
      var r: int, g: int, b: int := ByteAt(pixels, o), ByteAt(pixels, o + 1), ByteAt(pixels, o + 2);
      var sum := 299 * r + 587 * g + 114 * b;
      var x := 0.299 * r as real + 0.587 * g as real + 0.114 * b as real;
      assert x * 1000.0 == sum as real;
      var v := (x + 0.5).Floor;
      assert v as real <= x + 0.5 < v as real + 1.0;
      assert 1000 * v - 500 <= sum < 1000 * v + 500;
      assert 0 <= v <= 255;
    }
  }

  lemma {:induction false} PlaneIsLuma(pixels: seq<Byte>, channels: nat, n: nat)
    ensures forall k :: 0 <= k < n ==> IsLuma(pixels, channels, k, LumaPlane(pixels, channels, n)[k])
  {
    hide LumaOf, IsLuma;
    if n > 0 {
      PlaneIsLuma(pixels, channels, n - 1);
      LumaIsNearest(pixels, channels, n - 1);
    }
  }

  // Decoding any encoding of an image gives an image of its size, each point of it the luma of
  // its own pixel.
  lemma DecodedIsLuma(header: seq<Byte>, pixels: seq<Byte>, filters: seq<Byte>, stream: seq<Byte>,
                      parts: seq<seq<Byte>>, inflate: seq<Byte> -> Option<seq<Byte>>)
    requires |header| == 13 && forall k :: 0 <= k < |parts| ==> |parts[k]| < 0x1_0000_0000
    requires Encodes(header, pixels, filters, stream, inflate) && Joined(parts) == stream
    ensures var image, channels := Decoded(FileOf(header, parts), inflate), Channels(header[9]);
            && image.Some? && image.value.width == ReadBE(header, 0) && image.value.height == ReadBE(header, 4)
            && |image.value.luma| == image.value.width * image.value.height
            && forall k :: 0 <= k < |image.value.luma| ==> IsLuma(pixels, channels, k, image.value.luma[k])
  {
    hide Decoded, IsLuma, LumaPlane, Encodes, FileOf, ReadBE;
    DecodeInvertsEncode(header, pixels, filters, stream, parts, inflate);
    var n := Times(ReadBE(header, 0), ReadBE(header, 4));
    PlaneIsLuma(pixels, Channels(header[9]), n);
  }
}
