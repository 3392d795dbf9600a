/**
 * The integer drawing primitives of the widget preview: RGBA pixel writes
 * into a flat byte buffer of 4 bytes per pixel, with an alpha weighted the
 * way anti-aliased lines weight it, horizontal and vertical lines, the width
 * of a string in a bitmap font, and the integer layout arithmetic of
 * `drawText`.
 */
module Draw {
  import opened Wrappers
  import Styles
  import JsInt

  // ---------------------------------------------------------------------------
  // The image buffer

  newtype Byte = b: int | 0 <= b < 256

  /** Storing into a `Uint8ClampedArray` clamps the value to 0..255. */
  function Clamp(v: int): (r: Byte)
    ensures 0 <= v <= 255 ==> r as int == v
    ensures v < 0 ==> r == 0
    ensures v > 255 ==> r == 255
  {
    if v < 0 then 0 else if v > 255 then 255 else v as Byte
  }

  datatype Rgba = Rgba(r: int, g: int, b: int, a: int)

  /** Channel `k` of a colour, in byte order r, g, b, a. */
  function Channel(c: Rgba, k: int): int
    requires 0 <= k < 4
  {
    if k == 0 then c.r else if k == 1 then c.g else if k == 2 then c.b else c.a
  }

  class ImageBuffer {
    const width: int
    const height: int
    const pixels: array<Byte>

    constructor(width: int, height: int, pixels: array<Byte>)
      ensures this.width == width && this.height == height && this.pixels == pixels
    {
      this.width := width;
      this.height := height;
      this.pixels := pixels;
    }
  }

  /** The index of the first byte of pixel (x, y): `y * width * 4 + x * 4`. */
  function Base(width: int, x: int, y: int): int
  {
    4 * (y * width + x)
  }

  predicate InPixel(i: int, width: int, x: int, y: int)
  {
    Base(width, x, y) <= i < Base(width, x, y) + 4
  }

  /** The bytes after painting pixel (x, y): its four bytes hold the clamped channels, indices outside the buffer are dropped. */
  function Painted(s: seq<Byte>, width: int, x: int, y: int, c: Rgba): (r: seq<Byte>)
  {
    seq(|s|, i requires 0 <= i < |s| => if InPixel(i, width, x, y) then Clamp(Channel(c, i % 4)) else s[i])
  }

  lemma ChannelOfByte(base: int, k: int)
    requires base % 4 == 0 && 0 <= k < 4
    ensures (base + k) % 4 == k
  {
  }

  /** The bytes after an assignment to a typed-array element: out-of-range indices are ignored. */
  function Stored(s: seq<Byte>, i: int, v: int): seq<Byte>
  {
    if 0 <= i < |s| then s[i := Clamp(v)] else s
  }

  /** The four channel stores of `pixelRGBA` together paint the pixel. */
  lemma FourStores(s: seq<Byte>, width: int, x: int, y: int, c: Rgba)
    ensures var base := Base(width, x, y);
      Stored(Stored(Stored(Stored(s, base, c.r), base + 1, c.g), base + 2, c.b), base + 3, c.a)
      == Painted(s, width, x, y, c)
  {
    var k := y * width + x;
    var base := Base(width, x, y);
    assert base == 4 * k;
    var s4 := Stored(Stored(Stored(Stored(s, base, c.r), base + 1, c.g), base + 2, c.b), base + 3, c.a);
    var p := Painted(s, width, x, y, c);
    forall i | 0 <= i < |s| ensures s4[i] == p[i] {
      FourStoresAt(s, base, c, i);
    }
  }

  /** One byte after the four stores: a byte of the pixel holds its channel, any other is kept. */
  lemma FourStoresAt(s: seq<Byte>, base: int, c: Rgba, i: int)
    requires base % 4 == 0 && 0 <= i < |s|
    ensures var s4 := Stored(Stored(Stored(Stored(s, base, c.r), base + 1, c.g), base + 2, c.b), base + 3, c.a);
      |s4| == |s| && s4[i] == if base <= i < base + 4 then Clamp(Channel(c, i % 4)) else s[i]
  {
    var s1 := Stored(s, base, c.r);
    var s2 := Stored(s1, base + 1, c.g);
    var s3 := Stored(s2, base + 2, c.b);
    StoredAt(s3, base + 3, c.a, i);
    StoredAt(s2, base + 2, c.b, i);
    StoredAt(s1, base + 1, c.g, i);
    StoredAt(s, base, c.r, i);
    if base <= i < base + 4 {
      ChannelOfByte(base, i - base);
    }
  }

  lemma StoredAt(s: seq<Byte>, j: int, v: int, i: int)
    requires 0 <= i < |s|
    ensures |Stored(s, j, v)| == |s|
    ensures Stored(s, j, v)[i] == if i == j then Clamp(v) else s[i]
  {
  }

  /** An assignment to a typed-array element. */
  method Store(a: array<Byte>, i: int, v: int)
    modifies a
    ensures a[..] == Stored(old(a[..]), i, v)
  {
    if 0 <= i < a.Length {
      a[i] := Clamp(v);
    }
  }

  /** `pixelRGBA`. */
  method PixelRGBA(buf: ImageBuffer, x: int, y: int, c: Rgba)
    modifies buf.pixels
    ensures buf.pixels[..] == Painted(old(buf.pixels[..]), buf.width, x, y, c)
  {
    var base := Base(buf.width, x, y);
    ghost var before := buf.pixels[..];
    Store(buf.pixels, base + 0, c.r);
    Store(buf.pixels, base + 1, c.g);
    Store(buf.pixels, base + 2, c.b);
    Store(buf.pixels, base + 3, c.a);
    FourStores(before, buf.width, x, y, c);
  }

  /** `pixelRGBA` writes the four channels into bytes (y·width + x)·4 to +3 and changes no other byte. */
  lemma PaintedBytes(s: seq<Byte>, width: int, x: int, y: int, c: Rgba, i: int)
    requires 0 <= i < |s|
    ensures |Painted(s, width, x, y, c)| == |s|
    ensures Base(width, x, y) <= i < Base(width, x, y) + 4 ==>
      Painted(s, width, x, y, c)[i] == Clamp(Channel(c, i - Base(width, x, y)))
    ensures !(Base(width, x, y) <= i < Base(width, x, y) + 4) ==> Painted(s, width, x, y, c)[i] == s[i]
  {
    if InPixel(i, width, x, y) {
      ChannelOfByte(Base(width, x, y), i - Base(width, x, y));
    }
  }

  // ---------------------------------------------------------------------------
  // pixelRGBAWeight

  /** The alpha `pixelRGBAWeight` writes: `(a * weight) >> 8`, 255 if above 255, else its low byte. */
  function WeightedAlpha(a: int, weight: int): (r: int)
    ensures 0 <= r <= 255
    ensures 0 <= a * weight < 0x8000_0000 ==> r == if a * weight / 256 > 255 then 255 else a * weight / 256
  {
    var ax := JsInt.ToInt32(a * weight) / 256;
    if ax > 255 then 255 else ax % 256
  }

  /** A full weight of 256 keeps a valid alpha; a zero weight makes the pixel transparent. */
  lemma WeightExtremes(a: int)
    requires 0 <= a <= 255
    ensures WeightedAlpha(a, 256) == a
    ensures WeightedAlpha(a, 0) == 0
  {
    assert a * 256 / 256 == a;
  }

  /** Scaling by a weight below 256 never raises a valid alpha. */
  lemma WeightNeverRaises(a: int, weight: int)
    requires 0 <= a <= 255 && 0 <= weight <= 256
    ensures WeightedAlpha(a, weight) <= a
  {
    assert 0 <= a * weight <= a * 256;
    assert a * weight / 256 <= a * 256 / 256;
  }

  /** `pixelRGBAWeight`. */
  method PixelRGBAWeight(buf: ImageBuffer, x: int, y: int, c: Rgba, weight: int)
    modifies buf.pixels
    ensures buf.pixels[..] == Painted(old(buf.pixels[..]), buf.width, x, y, c.(a := WeightedAlpha(c.a, weight)))
  {
    var ax := JsInt.ToInt32(c.a * weight) / 256;
    var a := if ax > 255 then 255 else ax % 256;
    PixelRGBA(buf, x, y, c.(a := a));
  }

  // ---------------------------------------------------------------------------
  // hlineRGBA / vlineRGBA

  function Min(a: int, b: int): int { if a <= b then a else b }
  function Max(a: int, b: int): int { if a <= b then b else a }

  /** The bytes after painting pixels lo..hi of row y, in that order. */
  function Row(s: seq<Byte>, width: int, lo: int, hi: int, y: int, c: Rgba): (r: seq<Byte>)
    ensures |r| == |s|
    decreases if hi < lo then 0 else hi - lo + 1
  {
    if hi < lo then s else Painted(Row(s, width, lo, hi - 1, y, c), width, hi, y, c)
  }

  /** The bytes after painting pixels lo..hi of column x, in that order. */
  function Column(s: seq<Byte>, width: int, x: int, lo: int, hi: int, c: Rgba): (r: seq<Byte>)
    ensures |r| == |s|
    decreases if hi < lo then 0 else hi - lo + 1
  {
    if hi < lo then s else Painted(Column(s, width, x, lo, hi - 1, c), width, x, hi, c)
  }

  /** `hlineRGBA`: the endpoints in either order. */
  method HLineRGBA(buf: ImageBuffer, x1: int, x2: int, y: int, c: Rgba)
    modifies buf.pixels
    ensures buf.pixels[..] == Row(old(buf.pixels[..]), buf.width, Min(x1, x2), Max(x1, x2), y, c)
  {
    var lo, hi := x1, x2;
    if lo > hi {
      lo, hi := hi, lo;
    }
    var x := lo;
    while x <= hi
      invariant lo <= x <= hi + 1
      invariant buf.pixels[..] == Row(old(buf.pixels[..]), buf.width, lo, x - 1, y, c)
      decreases hi - x
    {
      PixelRGBA(buf, x, y, c);
      x := x + 1;
    }
  }

  /** `vlineRGBA`: the endpoints in either order. */
  method VLineRGBA(buf: ImageBuffer, x: int, y1: int, y2: int, c: Rgba)
    modifies buf.pixels
    ensures buf.pixels[..] == Column(old(buf.pixels[..]), buf.width, x, Min(y1, y2), Max(y1, y2), c)
  {
    var lo, hi := y1, y2;
    if lo > hi {
      lo, hi := hi, lo;
    }
    var y := lo;
    while y <= hi
      invariant lo <= y <= hi + 1
      invariant buf.pixels[..] == Column(old(buf.pixels[..]), buf.width, x, lo, y - 1, c)
      decreases hi - y
    {
      PixelRGBA(buf, x, y, c);
      y := y + 1;
    }
  }

  predicate OnRow(i: int, width: int, lo: int, hi: int, y: int)
  {
    exists x :: lo <= x <= hi && InPixel(i, width, x, y)
  }

  predicate OnColumn(i: int, width: int, x: int, lo: int, hi: int)
  {
    exists y :: lo <= y <= hi && InPixel(i, width, x, y)
  }

  lemma PaintedAt(s: seq<Byte>, width: int, x: int, y: int, c: Rgba, i: int)
    requires 0 <= i < |s|
    ensures Painted(s, width, x, y, c)[i] == if InPixel(i, width, x, y) then Clamp(Channel(c, i % 4)) else s[i]
  {
  }

  /** A horizontal line paints every pixel x of row y with lo <= x <= hi, and no other byte changes. */
  lemma {:induction false} RowBytes(s: seq<Byte>, width: int, lo: int, hi: int, y: int, c: Rgba, i: int)
    requires 0 <= i < |s|
    ensures Row(s, width, lo, hi, y, c)[i] == if OnRow(i, width, lo, hi, y) then Clamp(Channel(c, i % 4)) else s[i]
    decreases if hi < lo then 0 else hi - lo + 1
  {
    if hi >= lo {
      RowBytes(s, width, lo, hi - 1, y, c, i);
      PaintedAt(Row(s, width, lo, hi - 1, y, c), width, hi, y, c, i);
      if InPixel(i, width, hi, y) {
        assert OnRow(i, width, lo, hi, y);
      } else if OnRow(i, width, lo, hi, y) {
        var x :| lo <= x <= hi && InPixel(i, width, x, y);
        assert OnRow(i, width, lo, hi - 1, y);
      }
    }
  }

  /** A vertical line paints every pixel y of column x with lo <= y <= hi, and no other byte changes. */
  lemma {:induction false} ColumnBytes(s: seq<Byte>, width: int, x: int, lo: int, hi: int, c: Rgba, i: int)
    requires 0 <= i < |s|
    ensures Column(s, width, x, lo, hi, c)[i] == if OnColumn(i, width, x, lo, hi) then Clamp(Channel(c, i % 4)) else s[i]
    decreases if hi < lo then 0 else hi - lo + 1
  {
    if hi >= lo {
      ColumnBytes(s, width, x, lo, hi - 1, c, i);
      PaintedAt(Column(s, width, x, lo, hi - 1, c), width, x, hi, c, i);
      if InPixel(i, width, x, hi) {
        assert OnColumn(i, width, x, lo, hi);
      } else if OnColumn(i, width, x, lo, hi) {
        var y :| lo <= y <= hi && InPixel(i, width, x, y);
        assert OnColumn(i, width, x, lo, hi - 1);
      }
    }
  }

  /** On a row the painted pixels are contiguous: bytes 4·(y·width + lo) up to 4·(y·width + hi) + 3. */
  lemma RowSpan(i: int, width: int, lo: int, hi: int, y: int)
    ensures OnRow(i, width, lo, hi, y) <==> 4 * (y * width + lo) <= i < 4 * (y * width + hi) + 4
  {
    if 4 * (y * width + lo) <= i < 4 * (y * width + hi) + 4 {
      var x := i / 4 - y * width;
      assert InPixel(i, width, x, y);
    }
  }

  // ---------------------------------------------------------------------------
  // measureStr

  datatype Glyph = Glyph(dx: Option<int>)
  datatype Font = Font(glyphs: map<int, Glyph>, height: int)

  /** `measureGlyph`: a missing glyph, and a glyph without `dx`, measure 0. */
  function GlyphWidth(font: Font, code: int): int
  {
    if code in font.glyphs && font.glyphs[code].dx.Some? then font.glyphs[code].dx.value else 0
  }

  /** The glyph widths of a text, one per character (per UTF-16 code unit in the Basic Multilingual Plane). */
  function Widths(text: string, font: Font): (ws: seq<int>)
    ensures |ws| == |text|
    ensures forall i :: 0 <= i < |text| ==> ws[i] == GlyphWidth(font, text[i] as int)
  {
    seq(|text|, i requires 0 <= i < |text| => GlyphWidth(font, text[i] as int))
  }

  function Sum(ws: seq<int>): int
  {
    if |ws| == 0 then 0 else Sum(ws[..|ws| - 1]) + ws[|ws| - 1]
  }

  /** Some leading run of glyphs is wider than `maxWidth`. */
  ghost predicate Overflows(ws: seq<int>, maxWidth: int)
  {
    exists j :: 1 <= j <= |ws| && Sum(ws[..j]) > maxWidth
  }

  /** The width `measureStr` reports: the sum of the widths, or `maxWidth` once a prefix would exceed it. */
  ghost function MeasuredWidth(text: string, font: Font, maxWidth: int): int
  {
    var ws := Widths(text, font);
    if maxWidth > 0 && Overflows(ws, maxWidth) then maxWidth else Sum(ws)
  }

  /** `measureStr`. */
  method MeasureStr(text: string, font: Font, maxWidth: int) returns (width: int)
    ensures width == MeasuredWidth(text, font, maxWidth)
  {
    ghost var ws := Widths(text, font);
    width := 0;
    for i := 0 to |text|
      invariant width == Sum(ws[..i])
      invariant maxWidth > 0 ==> forall j :: 1 <= j <= i ==> Sum(ws[..j]) <= maxWidth
    {
      var glyphWidth := GlyphWidth(font, text[i] as int);
      assert ws[..i + 1][..i] == ws[..i];
      if maxWidth > 0 && width + glyphWidth > maxWidth {
        assert Sum(ws[..i + 1]) > maxWidth;
        return maxWidth;
      }
      width := width + glyphWidth;
    }
    assert ws[..|text|] == ws;
  }

  /** With a positive limit the reported width never exceeds it. */
  lemma MeasuredWithinLimit(text: string, font: Font, maxWidth: int)
    requires maxWidth > 0
    ensures MeasuredWidth(text, font, maxWidth) <= maxWidth
  {
    var ws := Widths(text, font);
    if !Overflows(ws, maxWidth) && |ws| > 0 {
      assert ws[..|ws|] == ws;
    }
  }

  lemma {:induction false} SumMonotone(ws: seq<int>, j: nat)
    requires j <= |ws|
    requires forall k :: 0 <= k < |ws| ==> ws[k] >= 0
    ensures Sum(ws[..j]) <= Sum(ws)
    decreases |ws| - j
  {
    if j < |ws| {
      SumMonotone(ws, j + 1);
      assert ws[..j + 1][..j] == ws[..j];
    } else {
      assert ws[..j] == ws;
    }
  }

  /** With glyphs of non-negative width, the limit simply caps the sum. */
  lemma CappedSum(text: string, font: Font, maxWidth: int)
    requires maxWidth > 0
    requires forall i :: 0 <= i < |text| ==> GlyphWidth(font, text[i] as int) >= 0
    ensures MeasuredWidth(text, font, maxWidth) == if Sum(Widths(text, font)) > maxWidth then maxWidth else Sum(Widths(text, font))
  {
    var ws := Widths(text, font);
    if Overflows(ws, maxWidth) {
      var j :| 1 <= j <= |ws| && Sum(ws[..j]) > maxWidth;
      SumMonotone(ws, j);
    }
    if Sum(ws) > maxWidth {
      assert ws[..|ws|] == ws;
      assert |ws| >= 1;
    }
  }

  // ---------------------------------------------------------------------------
  // drawText layout

  function MaxSide(r: Styles.Rect): int
  {
    Max(Max(r.top, r.right), Max(r.bottom, r.left))
  }

  predicate HasBorder(r: Styles.Rect)
  {
    r.top > 0 || r.right > 0 || r.bottom > 0 || r.left > 0
  }

  datatype Box = Box(x1: int, y1: int, x2: int, y2: int)

  /** The box the background fills: the widget's box, minus the border when one is drawn. */
  function InnerBox(x: int, y: int, w: int, h: int, border: Styles.Rect): (b: Box)
    ensures !HasBorder(border) ==> b == Box(x, y, x + w - 1, y + h - 1)
    ensures HasBorder(border) ==>
      b.x1 - x == border.left && b.y1 - y == border.top
      && (x + w - 1) - b.x2 == border.right && (y + h - 1) - b.y2 == border.bottom
  {
    var b := Box(x, y, x + w - 1, y + h - 1);
    if HasBorder(border)
    then Box(b.x1 + border.left, b.y1 + border.top, b.x2 - border.right, b.y2 - border.bottom)
    else b
  }

  /** The corner radius of the background: shrunk by the widest border side, never below 0. */
  function InnerRadius(radius: int, border: Styles.Rect): (r: int)
    ensures !HasBorder(border) ==> r == radius
    ensures HasBorder(border) ==> r >= 0 && r + MaxSide(border) >= radius
    ensures HasBorder(border) && r > 0 ==> r + MaxSide(border) == radius
  {
    if HasBorder(border) then Max(radius - MaxSide(border), 0) else radius
  }

  /** The x of the text: after the left padding, before the right padding, or centred but never left of the box. */
  function XOffset(align: string, box: Box, padding: Styles.Rect, width: int): (r: int)
    ensures align == "left" ==> r == box.x1 + padding.left
    ensures align != "left" && align == "right" ==> (box.x2 - padding.right) - r == width
    ensures align != "left" && align != "right" ==> r >= box.x1
  {
    if align == "left" then box.x1 + padding.left
    else if align == "right" then box.x2 - padding.right - width
    else
      var centred := box.x1 + (box.x2 - box.x1 + 1 - width) / 2;
      if centred < box.x1 then box.x1 else centred
  }

  /** The y of the text, aligned like the x but with no clamp when it is centred. */
  function YOffset(align: string, box: Box, padding: Styles.Rect, height: int): int
  {
    if align == "top" then box.y1 + padding.top
    else if align == "bottom" then box.y2 - padding.bottom - height
    else box.y1 + (box.y2 - box.y1 + 1 - height) / 2
  }

  /** Centred text that fits leaves margins on the left and right that differ by at most one pixel, the extra one on the right. */
  lemma CentredHorizontally(align: string, box: Box, padding: Styles.Rect, width: int)
    requires align != "left" && align != "right"
    requires 0 <= width <= box.x2 - box.x1 + 1
    ensures var r := XOffset(align, box, padding, width);
      var leftMargin := r - box.x1;
      var rightMargin := box.x2 - (r + width - 1);
      leftMargin <= rightMargin <= leftMargin + 1
  {
  }

  /** Centred text leaves margins above and below that differ by at most one pixel, whether or not it fits. */
  lemma CentredVertically(align: string, box: Box, padding: Styles.Rect, height: int)
    requires align != "top" && align != "bottom"
    ensures var r := YOffset(align, box, padding, height);
      var topMargin := r - box.y1;
      var bottomMargin := box.y2 - (r + height - 1);
      topMargin <= bottomMargin <= topMargin + 1
  {
  }

  /** Where `drawText` puts the background and, for a font and text of positive size, the text. */
  datatype Layout = Layout(background: Box, radius: int, text: Option<(int, int)>)

  /**
   * The layout `drawText` computes for a widget box, its style's border,
   * radius, padding and alignments, and the measured text size (no text is
   * drawn without a font, or when either is 0).
   */
  function TextLayout(x: int, y: int, w: int, h: int, border: Styles.Rect, radius: int, padding: Styles.Rect,
                      alignH: string, alignV: string, hasFont: bool, width: int, height: int): (l: Layout)
    ensures l.background == InnerBox(x, y, w, h, border) && l.radius == InnerRadius(radius, border)
    ensures l.text.Some? <==> hasFont && width > 0 && height > 0
    ensures l.text.Some? ==> l.text.value == (XOffset(alignH, l.background, padding, width),
                                              YOffset(alignV, l.background, padding, height))
  {
    var box := InnerBox(x, y, w, h, border);
    Layout(box, InnerRadius(radius, border),
      if hasFont && width > 0 && height > 0
      then Some((XOffset(alignH, box, padding, width), YOffset(alignV, box, padding, height)))
      else None)
  }
}
