// Decoding a PNG to luma (pngLuma.ts). Un-filtering inverts the filtering of section 6 of
// RFC 2083 for every image and every choice of filters, and how a stream is split into IDAT
// chunks (section 3.2 of RFC 2083) makes no difference. Inflation is opaque.
module PngLuma {
  import opened Bytes
  import opened Events

  function Abs(x: int): nat { if x < 0 then -x else x }

  function Paeth(a: int, b: int, c: int): (r: int)
    ensures r == a || r == b || r == c
    ensures var p := a + b - c; Abs(p - r) <= Abs(p - a) && Abs(p - r) <= Abs(p - b) && Abs(p - r) <= Abs(p - c)
  {
    var p := a + b - c;
    var pa, pb, pc := Abs(p - a), Abs(p - b), Abs(p - c);
    if pa <= pb && pa <= pc then a else if pb <= pc then b else c
  }

  // What a filter predicts from the byte to the left, above, and above left.
  function Predict(filter: Byte, a: Byte, b: Byte, c: Byte): int {
    match filter
    case 0 => 0
    case 1 => a
    case 2 => b
    case 3 => (a + b) / 2
    case _ => Paeth(a, b, c)
  }

  // ---- one row ----

  function Left(row: seq<Byte>, bpp: nat, x: nat): Byte { if x >= bpp && x - bpp < |row| then row[x - bpp] else 0 }
  function At(row: seq<Byte>, x: nat): Byte { if x < |row| then row[x] else 0 }

  // Filtering, as an encoder does it: each byte minus its prediction, modulo 256.
  function FilterRow(filter: Byte, bpp: nat, above: seq<Byte>, row: seq<Byte>): (r: seq<Byte>)
    ensures |r| == |row|
  {
    seq(|row|, x requires 0 <= x < |row| =>
      (row[x] - Predict(filter, Left(row, bpp, x), At(above, x), Left(above, bpp, x))) % 256)
  }

  // The first n bytes of the un-filtered row.
  function UnfilterRow(filter: Byte, bpp: nat, above: seq<Byte>, line: seq<Byte>, n: nat): (r: seq<Byte>)
    ensures |r| == n
  {
    if n == 0 then []
    else
      var done := UnfilterRow(filter, bpp, above, line, n - 1);
      done + [(At(line, n - 1)
               + Predict(filter, Left(done, bpp, n - 1), At(above, n - 1), Left(above, bpp, n - 1))) % 256]
  }

  lemma RoundTripByte(v: Byte, p: int)
    ensures ((v - p) % 256 + p) % 256 == v
  { }

  lemma {:induction false} RowRoundTrip(filter: Byte, bpp: nat, above: seq<Byte>, row: seq<Byte>, n: nat)
    requires n <= |row| && bpp > 0
    ensures UnfilterRow(filter, bpp, above, FilterRow(filter, bpp, above, row), n) == row[..n]
  {
    if n > 0 {
      RowRoundTrip(filter, bpp, above, row, n - 1);
      assert Left(row[..n - 1], bpp, n - 1) == Left(row, bpp, n - 1);
      RoundTripByte(row[n - 1], Predict(filter, Left(row, bpp, n - 1), At(above, n - 1), Left(above, bpp, n - 1)));
      assert row[..n] == row[..n - 1] + [row[n - 1]];
    }
  }

  // ---- the whole image ----

  function RowAt(pixels: seq<Byte>, stride: nat, y: nat): seq<Byte>
    requires (y + 1) * stride <= |pixels|
  {
    RowStart(y, stride);
    pixels[y * stride..(y + 1) * stride]
  }

  lemma RowStart(y: nat, stride: nat)
    ensures 0 <= y * stride && (y + 1) * stride == y * stride + stride
  { }

  // The row above; nothing above the first.
  function Above(pixels: seq<Byte>, stride: nat, y: nat): seq<Byte>
    requires y * stride <= |pixels|
  {
    if y == 0 then [] else RowAt(pixels, stride, y - 1)
  }

  // The filtered stream: every row preceded by its filter byte.
  function FilterImage(pixels: seq<Byte>, filters: seq<Byte>, stride: nat, bpp: nat, height: nat): (r: seq<Byte>)
    requires |filters| >= height && height * stride <= |pixels|
    ensures |r| == height * (stride + 1)
  {
    if height == 0 then []
    else
      RowStart(height - 1, stride);
      RowStart(height - 1, stride + 1);
      FilterImage(pixels, filters, stride, bpp, height - 1)
        + [filters[height - 1]]
          + FilterRow(filters[height - 1], bpp, Above(pixels, stride, height - 1), RowAt(pixels, stride, height - 1))
  }

  // What the decoder makes of a stream; bytes past its end read as zero.
  function UnfilterImage(raw: seq<Byte>, stride: nat, bpp: nat, height: nat): (r: Option<seq<Byte>>)
    ensures r.Some? ==> |r.value| == height * stride
  {
    if height == 0 then Some([])
    else
      var done := UnfilterImage(raw, stride, bpp, height - 1);
      var filter := At(raw, (height - 1) * (stride + 1));
      if done.None? then None
      else
        RowStart(height - 1, stride);
        if filter > 4 && stride > 0 then None
        else Some(done.value
                  + UnfilterRow(filter, bpp, Above(done.value, stride, height - 1), Line(raw, stride, height - 1),
                                stride))
  }

  function Line(raw: seq<Byte>, stride: nat, y: nat): (r: seq<Byte>)
    ensures |r| == stride
  {
    LineFrom(raw, y * (stride + 1) + 1, stride)
  }

  function LineFrom(raw: seq<Byte>, start: nat, n: nat): (r: seq<Byte>)
    ensures |r| == n && forall x :: 0 <= x < n ==> r[x] == At(raw, start + x)
  {
    if n == 0 then [] else LineFrom(raw, start, n - 1) + [At(raw, start + n - 1)]
  }

  lemma LineOfFiltered(head: seq<Byte>, filter: Byte, body: seq<Byte>, rest: seq<Byte>, stride: nat, y: nat)
    requires |head| == y * (stride + 1) && |body| == stride
    ensures At(head + [filter] + body + rest, y * (stride + 1)) == filter
    ensures Line(head + [filter] + body + rest, stride, y) == body
  {
    var raw := head + [filter] + body + rest;
    var line := LineFrom(raw, |head| + 1, stride);
    forall x | 0 <= x < stride ensures line[x] == body[x] { assert raw[|head| + 1 + x] == body[x]; }
  }

  // A stream with more rows behind it decodes the same up to here.
  lemma {:induction false} UnfilterReadsPrefix(raw: seq<Byte>, rest: seq<Byte>, stride: nat, bpp: nat, height: nat)
    requires |raw| >= height * (stride + 1)
    ensures UnfilterImage(raw + rest, stride, bpp, height) == UnfilterImage(raw, stride, bpp, height)
  {
    hide UnfilterRow, Above, Line, At;
    if height > 0 {
      RowStart(height - 1, stride + 1);
      UnfilterReadsPrefix(raw, rest, stride, bpp, height - 1);
      LineReadsPrefix(raw, rest, stride, height - 1);
    }
  }

  lemma LineReadsPrefix(raw: seq<Byte>, rest: seq<Byte>, stride: nat, y: nat)
    requires |raw| >= y * (stride + 1) + stride + 1
    ensures Line(raw + rest, stride, y) == Line(raw, stride, y)
    ensures At(raw + rest, y * (stride + 1)) == At(raw, y * (stride + 1))
  {
    var start := y * (stride + 1) + 1;
    assert LineFrom(raw + rest, start, stride) == LineFrom(raw, start, stride);
  }

  lemma AboveOfPrefix(pixels: seq<Byte>, stride: nat, y: nat)
    requires y * stride <= |pixels|
    ensures Above(pixels[..y * stride], stride, y) == Above(pixels, stride, y)
  {
    if y > 0 { RowStart(y - 1, stride); }
  }

  // For every image, every choice among the five filters for each row, and every pixel width.
  lemma {:induction false} UnfilterInvertsFilter(pixels: seq<Byte>, filters: seq<Byte>, stride: nat, bpp: nat,
                                                 height: nat)
    requires bpp > 0 && |filters| >= height && height * stride <= |pixels|
    requires forall y :: 0 <= y < height ==> filters[y] <= 4
    ensures UnfilterImage(FilterImage(pixels, filters, stride, bpp, height), stride, bpp, height)
              == Some(pixels[..height * stride])
  {
    if height > 0 {
      var y := height - 1;
      RowStart(y, stride);
      RowStart(y, stride + 1);
      UnfilterInvertsFilter(pixels, filters, stride, bpp, y);
      LastRowInverts(pixels, filters, stride, bpp, y);
    }
  }

  lemma LastRowInverts(pixels: seq<Byte>, filters: seq<Byte>, stride: nat, bpp: nat, y: nat)
    requires bpp > 0 && |filters| > y && (y + 1) * stride <= |pixels| && filters[y] <= 4 && 0 <= y * stride <= |pixels|
    requires UnfilterImage(FilterImage(pixels, filters, stride, bpp, y), stride, bpp, y) == Some(pixels[..y * stride])
    ensures UnfilterImage(FilterImage(pixels, filters, stride, bpp, y + 1), stride, bpp, y + 1)
              == Some(pixels[..(y + 1) * stride])
  {
    hide UnfilterRow, FilterRow, Line, At, Above;
    RowStart(y, stride);
    RowStart(y, stride + 1);
    var head := FilterImage(pixels, filters, stride, bpp, y);
    var row := RowAt(pixels, stride, y);
    var body := FilterRow(filters[y], bpp, Above(pixels, stride, y), row);
    var raw := FilterImage(pixels, filters, stride, bpp, y + 1);
    assert raw == head + ([filters[y]] + body);
    UnfilterReadsPrefix(head, [filters[y]] + body, stride, bpp, y);
    assert raw == head + [filters[y]] + body + [];
    LineOfFiltered(head, filters[y], body, [], stride, y);
    AboveOfPrefix(pixels, stride, y);
    RowRoundTrip(filters[y], bpp, Above(pixels, stride, y), row, stride);
    assert row[..stride] == row;
    assert pixels[..(y + 1) * stride] == pixels[..y * stride] + row;
  }

  // ---- what the standard asks of each byte ----

  // Of the left, the upper and the upper left byte the one nearest to left + upper - upper
  // left, in that order of preference (section 6.6 of RFC 2083).
  ghost predicate IsNearest(a: int, b: int, c: int, r: int) {
    var p := a + b - c;
    && r in [a, b, c] && (forall x :: x in [a, b, c] ==> Abs(p - r) <= Abs(p - x))
    && (Abs(p - a) == Abs(p - r) ==> r == a) && (Abs(p - a) > Abs(p - r) && Abs(p - b) == Abs(p - r) ==> r == b)
  }

  // v is what a filter of sections 6.2 to 6.6 of RFC 2083 makes of a filtered byte.
  ghost predicate Restores(filter: Byte, cur: Byte, a: Byte, b: Byte, c: Byte, v: Byte) {
    || (filter == 0 && v == cur)
    || (filter == 1 && (v == cur + a || v == cur + a - 256))
    || (filter == 2 && (v == cur + b || v == cur + b - 256))
    || (filter == 3 && exists mean: int :: 0 <= a + b - 2 * mean <= 1 && (v == cur + mean || v == cur + mean - 256))
    || (filter == 4 && exists p: int :: IsNearest(a, b, c, p) && (v == cur + p || v == cur + p - 256))
  }

  lemma PredictRestores(filter: Byte, cur: Byte, a: Byte, b: Byte, c: Byte)
    requires filter <= 4
    ensures Restores(filter, cur, a, b, c, (cur + Predict(filter, a, b, c)) % 256)
  {
    var p := Predict(filter, a, b, c);
    if filter == 3 {
      assert 0 <= a + b - 2 * p <= 1;
    } else if filter == 4 {
      assert IsNearest(a, b, c, p);
    }
  }

  ghost predicate RestoresRow(filter: Byte, bpp: nat, above: seq<Byte>, line: seq<Byte>, row: seq<Byte>) {
    forall x :: 0 <= x < |row| ==>
      Restores(filter, At(line, x), Left(row, bpp, x), At(above, x), Left(above, bpp, x), row[x])
  }

  lemma {:induction false} RowIsRestored(filter: Byte, bpp: nat, above: seq<Byte>, line: seq<Byte>, n: nat)
    requires filter <= 4 && bpp > 0
    ensures RestoresRow(filter, bpp, above, line, UnfilterRow(filter, bpp, above, line, n))
  {
    hide Restores, Predict, RestoresRow;
    if n > 0 {
      RowIsRestored(filter, bpp, above, line, n - 1);
      var done := UnfilterRow(filter, bpp, above, line, n - 1);
      PredictRestores(filter, At(line, n - 1), Left(done, bpp, n - 1), At(above, n - 1), Left(above, bpp, n - 1));
      OneByteMore(filter, bpp, above, line, done, UnfilterRow(filter, bpp, above, line, n)[n - 1]);
    } else {
      NoBytes(filter, bpp, above, line);
    }
  }

  lemma NoBytes(filter: Byte, bpp: nat, above: seq<Byte>, line: seq<Byte>)
    ensures RestoresRow(filter, bpp, above, line, [])
  { }

  lemma OneByteMore(filter: Byte, bpp: nat, above: seq<Byte>, line: seq<Byte>, done: seq<Byte>, v: Byte)
    requires bpp > 0 && RestoresRow(filter, bpp, above, line, done)
    requires var n := |done|; Restores(filter, At(line, n), Left(done, bpp, n), At(above, n), Left(above, bpp, n), v)
    ensures RestoresRow(filter, bpp, above, line, done + [v])
  {
    hide Restores, At;
    assert forall x :: 0 <= x <= |done| ==> Left(done + [v], bpp, x) == Left(done, bpp, x);
  }

  // The byte in front of a row.
  function FilterOf(raw: seq<Byte>, stride: nat, y: nat): Byte { At(raw, y * (stride + 1)) }

  // A stream is refused exactly when a row of it names no filter; otherwise every byte of the
  // image is what the filter of its row makes of the bytes around it.
  lemma {:induction false} ImageIsRestored(raw: seq<Byte>, stride: nat, bpp: nat, height: nat)
    requires bpp > 0 && stride > 0
    ensures var r := UnfilterImage(raw, stride, bpp, height);
            && (r.Some? <==> forall y :: 0 <= y < height ==> FilterOf(raw, stride, y) <= 4)
            && (r.Some? ==> forall y :: 0 <= y < height ==> RowStands(r.value, raw, stride, bpp, y))
  {
    hide UnfilterRow, Line, At, RestoresRow, Above;
    if height > 0 {
      var y := height - 1;
      ImageIsRestored(raw, stride, bpp, y);
      var done, r := UnfilterImage(raw, stride, bpp, y), UnfilterImage(raw, stride, bpp, height);
      assert r.Some? <==> done.Some? && FilterOf(raw, stride, y) <= 4;
      if r.Some? {
        forall k | 0 <= k < height ensures RowStands(r.value, raw, stride, bpp, k) {
          if k < y { RowStaysPut(done.value, r.value, raw, stride, bpp, k); }
            else { NewRowStands(raw, stride, bpp, y); }
        }
      }
    }
  }

  // Row y is what its filter makes of its line and of the row above it.
  ghost predicate RowStands(out: seq<Byte>, raw: seq<Byte>, stride: nat, bpp: nat, y: nat) {
    && 0 <= y * stride && (y + 1) * stride <= |out| && y * stride <= |out|
    && RestoresRow(FilterOf(raw, stride, y), bpp, Above(out, stride, y), Line(raw, stride, y), RowAt(out, stride, y))
  }

  lemma RowStaysPut(done: seq<Byte>, out: seq<Byte>, raw: seq<Byte>, stride: nat, bpp: nat, y: nat)
    requires done <= out && RowStands(done, raw, stride, bpp, y)
    ensures RowStands(out, raw, stride, bpp, y)
  {
    hide RestoresRow, Line, At;
    RowStart(y, stride);
    assert RowAt(out, stride, y) == RowAt(done, stride, y);
    if y > 0 {
      RowStart(y - 1, stride);
      assert Above(out, stride, y) == Above(done, stride, y);
    }
  }

  lemma NewRowStands(raw: seq<Byte>, stride: nat, bpp: nat, y: nat)
    requires bpp > 0 && stride > 0 && UnfilterImage(raw, stride, bpp, y + 1).Some?
    ensures RowStands(UnfilterImage(raw, stride, bpp, y + 1).value, raw, stride, bpp, y)
  {
    hide UnfilterRow, RestoresRow, Line, At;
    RowStart(y, stride);
    var done, out := UnfilterImage(raw, stride, bpp, y).value, UnfilterImage(raw, stride, bpp, y + 1).value;
    var filter := At(raw, y * (stride + 1));
    var above, line := Above(done, stride, y), Line(raw, stride, y);
    RowIsRestored(filter, bpp, above, line, stride);
    assert out == done + UnfilterRow(filter, bpp, above, line, stride);
    assert RowAt(out, stride, y) == UnfilterRow(filter, bpp, above, line, stride);
    if y > 0 { RowStart(y - 1, stride); }
    assert Above(out, stride, y) == above;
  }

  // The decoder's two loops, filling the pixel buffer in place.
  method Unfilter(raw: seq<Byte>, stride: nat, bpp: nat, height: nat) returns (ok: bool, out: array<Byte>)
    requires bpp > 0
    ensures fresh(out)
    ensures UnfilterImage(raw, stride, bpp, height) == if ok then Some(out[..]) else None
  {
    hide UnfilterImage;
    RowStart(height, stride);
    UnfilterStarts(raw, stride, bpp);
    out := new Byte[height * stride](i => 0);
    ok := true;
    var rp, y := 0, 0;
    assert out[..0 * stride] == [];
    while y < height
      invariant 0 <= y <= height && rp == y * (stride + 1)
      invariant 0 <= y * stride <= out.Length == height * stride
      invariant UnfilterImage(raw, stride, bpp, y) == Some(out[..y * stride])
    {
      RowFits(y, height, stride);
      RowStart(y, stride + 1);
      var filter := At(raw, rp);
      rp := rp + 1;
      if filter > 4 && stride > 0 {
        BadFilterFails(raw, stride, bpp, y, height);
        ok := false;
        return;
      }
      UnfilterOneRow(raw, stride, bpp, y, filter, out);
      rp := rp + stride;
      y := y + 1;
    }
    assert out[..height * stride] == out[..];
  }

  lemma UnfilterStarts(raw: seq<Byte>, stride: nat, bpp: nat)
    ensures UnfilterImage(raw, stride, bpp, 0) == Some([])
  { }

  lemma RowFits(y: nat, height: nat, stride: nat)
    requires y < height
    ensures 0 <= y * stride && y * stride + stride == (y + 1) * stride <= height * stride
  {
    RowStart(y, stride);
    Monotone(y + 1, height, stride);
  }

  lemma Monotone(a: nat, b: nat, c: nat)
    requires a <= b
    ensures a * c <= b * c
  { }

  lemma {:induction false} BadFilterFails(raw: seq<Byte>, stride: nat, bpp: nat, y: nat, height: nat)
    requires y < height && stride > 0 && At(raw, y * (stride + 1)) > 4
    ensures UnfilterImage(raw, stride, bpp, height).None?
    decreases height
  {
    hide UnfilterRow, Above, Line;
    if y < height - 1 { BadFilterFails(raw, stride, bpp, y, height - 1); }
  }

  method UnfilterOneRow(raw: seq<Byte>, stride: nat, bpp: nat, y: nat, filter: Byte, out: array<Byte>)
    requires bpp > 0 && (stride > 0 ==> filter <= 4) && filter == At(raw, y * (stride + 1))
    requires 0 <= y * stride && y * stride + stride == (y + 1) * stride <= out.Length
    requires UnfilterImage(raw, stride, bpp, y) == Some(out[..y * stride])
    modifies out
    ensures UnfilterImage(raw, stride, bpp, y + 1) == Some(out[..(y + 1) * stride])
  {
    hide UnfilterImage, UnfilterRow, Predict;
    ghost var done := out[..y * stride];
    ghost var above, line := Above(done, stride, y), Line(raw, stride, y);
    var start := y * stride;
    var rp := y * (stride + 1) + 1;
    var up := if y > 0 then start - stride else 0;
    if y > 0 { PreviousRow(y, stride); }
    UnfilterRowStarts(filter, bpp, above, line);
    assert out[start..start] == [];
    var x := 0;
    while x < stride
      invariant 0 <= x <= stride && out[..start] == done
      invariant out[start..start + x] == UnfilterRow(filter, bpp, above, line, x)
    {
      ghost var row := out[start..start + x];
      var cur := At(raw, rp + x);
      var a: Byte := if x >= bpp then out[start + x - bpp] else 0;
      var b: Byte := if y > 0 then out[up + x] else 0;
      var c: Byte := if x >= bpp && y > 0 then out[up + x - bpp] else 0;
      assert a == Left(row, bpp, x);
      assert b == At(above, x) && c == Left(above, bpp, x) by { AboveIs(done, stride, y, up); }
      assert cur == At(line, x);
      UnfilterRowStep(filter, bpp, above, line, x);
      out[start + x] := (cur + Predict(filter, a, b, c)) % 256;
      assert out[start..start + x] == row;
      x := x + 1;
    }
    assert out[..(y + 1) * stride] == done + out[start..start + stride];
    RowCompletes(raw, stride, bpp, y, filter, done);
  }

  lemma PreviousRow(y: nat, stride: nat)
    requires y > 0
    ensures (y - 1) * stride + stride == y * stride && (y - 1) * stride >= 0
  { }

  lemma AboveIs(done: seq<Byte>, stride: nat, y: nat, up: nat)
    requires |done| == y * stride && (y > 0 ==> up == y * stride - stride)
    ensures y > 0 ==> Above(done, stride, y) == done[up..up + stride]
    ensures y == 0 ==> Above(done, stride, y) == []
  {
    if y > 0 { PreviousRow(y, stride); }
  }

  lemma UnfilterRowStarts(filter: Byte, bpp: nat, above: seq<Byte>, line: seq<Byte>)
    ensures UnfilterRow(filter, bpp, above, line, 0) == []
  { }

  lemma UnfilterRowStep(filter: Byte, bpp: nat, above: seq<Byte>, line: seq<Byte>, x: nat)
    ensures UnfilterRow(filter, bpp, above, line, x + 1)
         == UnfilterRow(filter, bpp, above, line, x)
          + [(At(line, x) + Predict(filter, Left(UnfilterRow(filter, bpp, above, line, x), bpp, x), At(above, x),
                                    Left(above, bpp, x))) % 256]
  { }

  lemma RowCompletes(raw: seq<Byte>, stride: nat, bpp: nat, y: nat, filter: Byte, done: seq<Byte>)
    requires filter == At(raw, y * (stride + 1)) && (stride > 0 ==> filter <= 4)
    requires |done| == y * stride && UnfilterImage(raw, stride, bpp, y) == Some(done)
    ensures UnfilterImage(raw, stride, bpp, y + 1)
         == Some(done + UnfilterRow(filter, bpp, Above(done, stride, y), Line(raw, stride, y), stride))
  {
    hide UnfilterRow, Above, Line;
  }
}
