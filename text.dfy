// Text rendering of src/wgleng/rendering/Text.cpp: `LoadFont` rasterises the
// first 128 characters of a font and repacks their bitmaps into one texture
// array of equal cells; `DrawableText` turns a string with highlight markup
// into six vertices per glyph.  FreeType is a parameter (the outcome of
// loading each character), GL objects are opaque names.

module Text {
  import opened Common
  import opened Glm
  import Decimal

  /** `charData_t`: layer, bitmap size, bearing and 26.6 advance of a glyph. */
  datatype CharData = CharData(textureId: nat, width: nat, rows: nat, bearingX: int, bearingY: int, advance: nat)

  /** A character whose glyph failed to load keeps the zero-initialised record. */
  const NoChar := CharData(0, 0, 0, 0, 0, 0)

  /** The number of characters a font holds: the ASCII range. */
  const CharCount := 128

  /** The pixel height fonts are rasterised at. */
  const FontScale := 48

  /** What FreeType hands back for one rendered character. */
  datatype Glyph = Glyph(width: nat, rows: nat, left: int, top: int, advance: nat, buffer: seq<Byte>)

  predicate GlyphFits(g: Glyph) { |g.buffer| >= g.width * g.rows }

  /** `fontData_t`, with the texels uploaded to its texture array. */
  datatype FontData = FontData(fontName: string, chars: seq<CharData>, maxWidth: nat, maxRows: nat,
                               fontTexture: nat, fontScale: nat, atlas: seq<Byte>)

  /** `textVertex_t`. */
  datatype TextVertex = TextVertex(position: Vec2, uv: Vec2, textureId: nat, highlightId: Byte)

  // ---------------------------------------------------------------------
  // Glyph loading

  /** The record of character c after its load attempt. */
  function CharOf(c: nat, g: Option<Glyph>): (r: CharData)
    ensures g.None? ==> r == NoChar
    ensures g.Some? ==> r.textureId == c && r.width == g.value.width && r.rows == g.value.rows
  {
    match g
    case None => NoChar
    case Some(gl) => CharData(c, gl.width, gl.rows, gl.left, gl.top, gl.advance)
  }

  /** The `width * rows` bytes kept of character c's bitmap (none after a failed load). */
  function BitmapOf(g: Option<Glyph>): (r: seq<Byte>)
    requires g.Some? ==> GlyphFits(g.value)
  {
    match g
    case None => []
    case Some(gl) => gl.buffer[..gl.width * gl.rows]
  }

  predicate AllFit(glyphs: seq<Option<Glyph>>)
  {
    forall c :: 0 <= c < |glyphs| && glyphs[c].Some? ==> GlyphFits(glyphs[c].value)
  }

  function Chars(glyphs: seq<Option<Glyph>>): (r: seq<CharData>)
    ensures |r| == |glyphs| && forall c :: 0 <= c < |r| ==> r[c] == CharOf(c, glyphs[c])
  {
    seq(|glyphs|, c requires 0 <= c < |glyphs| => CharOf(c, glyphs[c]))
  }

  function Bitmaps(glyphs: seq<Option<Glyph>>): (r: seq<seq<Byte>>)
    requires AllFit(glyphs)
    ensures |r| == |glyphs| && forall c :: 0 <= c < |r| ==> r[c] == BitmapOf(glyphs[c])
  {
    seq(|glyphs|, c requires 0 <= c < |glyphs| => BitmapOf(glyphs[c]))
  }

  function Max(a: nat, b: nat): nat { if a < b then b else a }

  /** The widest bitmap: the x of `glm::max` folded over the characters from 0. */
  function MaxWidth(cs: seq<CharData>): (r: nat)
    ensures forall k :: 0 <= k < |cs| ==> cs[k].width <= r
  {
    if cs == [] then 0 else Max(MaxWidth(cs[..|cs| - 1]), cs[|cs| - 1].width)
  }

  /** The tallest bitmap: the y of the same fold. */
  function MaxRows(cs: seq<CharData>): (r: nat)
    ensures forall k :: 0 <= k < |cs| ==> cs[k].rows <= r
  {
    if cs == [] then 0 else Max(MaxRows(cs[..|cs| - 1]), cs[|cs| - 1].rows)
  }

  /**
   * The loop over the 128 characters: a character whose load fails keeps its
   * zero record and an empty bitmap and does not take part in the maximum.
   */
  method LoadGlyphs(glyphs: seq<Option<Glyph>>) returns (chars: seq<CharData>, bitmaps: seq<seq<Byte>>, maxWidth: nat, maxRows: nat)
    requires |glyphs| == CharCount && AllFit(glyphs)
    ensures chars == Chars(glyphs) && bitmaps == Bitmaps(glyphs)
    ensures maxWidth == MaxWidth(chars) && maxRows == MaxRows(chars)
  {
    chars := seq(CharCount, _ => NoChar);
    bitmaps := seq(CharCount, _ => []);
    maxWidth, maxRows := 0, 0;
    var c := 0;
    while c < CharCount
      invariant 0 <= c <= CharCount && |chars| == |bitmaps| == CharCount
      invariant forall k :: 0 <= k < c ==> chars[k] == CharOf(k, glyphs[k])
      invariant forall k :: 0 <= k < c ==> bitmaps[k] == BitmapOf(glyphs[k])
      invariant forall k :: c <= k < CharCount ==> chars[k] == NoChar && bitmaps[k] == []
      invariant maxWidth == MaxWidth(chars[..c]) && maxRows == MaxRows(chars[..c])
    {
      assert glyphs[c].Some? ==> GlyphFits(glyphs[c].value);
      chars, bitmaps, maxWidth, maxRows := LoadChar(c, glyphs[c], chars, bitmaps, maxWidth, maxRows);
      c := c + 1;
    }
    assert chars[..c] == chars;
  }

  /** One iteration: a loaded glyph fills record c and bitmap c and widens the maximum. */
  method LoadChar(c: nat, glyph: Option<Glyph>, chars: seq<CharData>, bitmaps: seq<seq<Byte>>, maxWidth: nat, maxRows: nat)
    returns (chars': seq<CharData>, bitmaps': seq<seq<Byte>>, maxWidth': nat, maxRows': nat)
    requires c < |chars| == |bitmaps| && chars[c] == NoChar && bitmaps[c] == []
    requires glyph.Some? ==> GlyphFits(glyph.value)
    requires maxWidth == MaxWidth(chars[..c]) && maxRows == MaxRows(chars[..c])
    ensures chars' == chars[c := CharOf(c, glyph)] && bitmaps' == bitmaps[c := BitmapOf(glyph)]
    ensures maxWidth' == MaxWidth(chars'[..c + 1]) && maxRows' == MaxRows(chars'[..c + 1])
  {
    chars', bitmaps', maxWidth', maxRows' := chars, bitmaps, maxWidth, maxRows;
    if glyph.Some? {
      var g := glyph.value;
      MulNat(g.width, g.rows);
      chars' := chars[c := CharData(c, g.width, g.rows, g.left, g.top, g.advance)];
      bitmaps' := bitmaps[c := g.buffer[..g.width * g.rows]];
      maxWidth', maxRows' := Max(maxWidth, g.width), Max(maxRows, g.rows);
    }
    assert chars'[..c + 1][..c] == chars[..c];
    assert MaxWidth(chars'[..c + 1]) == Max(maxWidth, chars'[c].width);
    assert MaxRows(chars'[..c + 1]) == Max(maxRows, chars'[c].rows);
  }

  // ---------------------------------------------------------------------
  // The atlas: one cell of maxWidth x maxRows bytes per character

  function Zeros(n: nat): (r: seq<Byte>)
    ensures |r| == n && forall k :: 0 <= k < n ==> r[k] == 0
  {
    seq(n, _ => 0)
  }

  lemma ZerosSplit(a: nat, b: nat)
    ensures Zeros(a) + Zeros(b) == Zeros(a + b)
  {
  }

  lemma AppendAssoc<T>(a: seq<T>, b: seq<T>, c: seq<T>)
    ensures a + b + c == a + (b + c)
  {
  }

  lemma ConcatAt<T>(a: seq<T>, b: seq<T>, r: nat)
    requires r < |b|
    ensures |a| + r < |a + b| && (a + b)[|a| + r] == b[r]
  {
  }

  lemma MulNat(a: nat, b: nat)
    ensures a * b >= 0
  {
  }

  lemma MulStep(n: nat, s: nat)
    ensures n * s + s == (n + 1) * s
  {
  }

  lemma MulAssoc(a: nat, b: nat, c: nat)
    ensures a * b * c == a * (b * c)
  {
  }

  lemma MulComm(a: nat, b: nat)
    ensures a * b == b * a
  {
  }

  lemma {:induction false} MulMono(a: nat, b: nat, c: nat)
    requires a <= b
    ensures a * c <= b * c
  {
    if a < b {
      MulMono(a, b - 1, c);
      MulStep(b - 1, c);
    }
  }

  /** Row y of an h-row bitmap of width w ends inside it. */
  lemma RowInside(y: nat, w: nat, h: nat)
    requires y < h
    ensures 0 <= y * w && y * w + w <= w * h
  {
    MulNat(y, w);
    MulMono(y + 1, h, w);
    MulStep(y, w);
    MulComm(h, w);
  }

  /**
   * Pixel (x, y) of a glyph: byte `y * width + x` of its row-major bitmap
   * inside the glyph, 0 outside it (and 0 should the bitmap be short).
   */
  function Pixel(c: CharData, bitmap: seq<Byte>, x: nat, y: nat): Byte
  {
    if x < c.width && y < c.rows && 0 <= y * c.width + x < |bitmap| then bitmap[y * c.width + x] else 0
  }

  /** A bitmap of exactly `width * rows` bytes is read in full by `Pixel`. */
  lemma PixelInside(c: CharData, bitmap: seq<Byte>, x: nat, y: nat)
    requires |bitmap| == c.width * c.rows && x < c.width && y < c.rows
    ensures 0 <= y * c.width + x < |bitmap| && Pixel(c, bitmap, x, y) == bitmap[y * c.width + x]
  {
    RowInside(y, c.width, c.rows);
  }

  /** Row y of a cell: the glyph's row followed by zeros, or all zeros below the glyph. */
  function PaddedRow(c: CharData, bitmap: seq<Byte>, y: nat, cellWidth: nat): seq<Byte>
  {
    seq(cellWidth, x requires 0 <= x => Pixel(c, bitmap, x, y))
  }

  /** The first n rows of a cell. */
  function Rows(c: CharData, bitmap: seq<Byte>, n: nat, cellWidth: nat): seq<Byte>
  {
    if n == 0 then [] else Rows(c, bitmap, n - 1, cellWidth) + PaddedRow(c, bitmap, n - 1, cellWidth)
  }

  lemma {:induction false} RowsLength(c: CharData, bitmap: seq<Byte>, n: nat, cellWidth: nat)
    ensures |Rows(c, bitmap, n, cellWidth)| == n * cellWidth
  {
    if n > 0 {
      RowsLength(c, bitmap, n - 1, cellWidth);
      MulStep(n - 1, cellWidth);
    }
  }

  /** Every glyph fits the cell and its bitmap has exactly `width * rows` bytes. */
  predicate CellsFit(cs: seq<CharData>, bitmaps: seq<seq<Byte>>, cellWidth: nat, cellRows: nat)
  {
    |cs| == |bitmaps| &&
    forall k :: 0 <= k < |cs| ==>
      cs[k].width <= cellWidth && cs[k].rows <= cellRows && |bitmaps[k]| == cs[k].width * cs[k].rows
  }

  /** The first n of a sequence of cells, laid end to end. */
  function Flatten(cells: seq<seq<Byte>>, n: nat): seq<Byte>
    requires n <= |cells|
  {
    if n == 0 then [] else Flatten(cells, n - 1) + cells[n - 1]
  }

  predicate Uniform(cells: seq<seq<Byte>>, size: nat)
  {
    forall k :: 0 <= k < |cells| ==> |cells[k]| == size
  }

  /** Cells of one size take that size each. */
  lemma {:induction false} FlattenLength(cells: seq<seq<Byte>>, size: nat, n: nat)
    requires Uniform(cells, size) && n <= |cells|
    ensures |Flatten(cells, n)| == n * size
  {
    if n > 0 {
      FlattenLength(cells, size, n - 1);
      MulStep(n - 1, size);
    }
  }

  /** The first m cells begin the first n. */
  lemma {:induction false} FlattenPrefix(cells: seq<seq<Byte>>, m: nat, n: nat)
    requires m <= n <= |cells|
    ensures |Flatten(cells, m)| <= |Flatten(cells, n)| && Flatten(cells, n)[..|Flatten(cells, m)|] == Flatten(cells, m)
  {
    if m < n {
      FlattenPrefix(cells, m, n - 1);
      var above := Flatten(cells, n - 1);
      assert Flatten(cells, n) == above + cells[n - 1];
      assert (above + cells[n - 1])[..|Flatten(cells, m)|] == above[..|Flatten(cells, m)|];
    }
  }

  /** Byte r of cell i sits r bytes past the cells before it. */
  lemma FlattenAt(cells: seq<seq<Byte>>, n: nat, i: nat, r: nat)
    requires i < n <= |cells| && r < |cells[i]|
    ensures |Flatten(cells, i)| + r < |Flatten(cells, n)| && Flatten(cells, n)[|Flatten(cells, i)| + r] == cells[i][r]
  {
    var k := |Flatten(cells, i)| + r;
    ConcatAt(Flatten(cells, i), cells[i], r);
    FlattenPrefix(cells, i + 1, n);
    assert Flatten(cells, n)[k] == Flatten(cells, n)[..|Flatten(cells, i + 1)|][k];
  }

  /** The cell of every character: its glyph padded to `cellWidth x cellRows`. */
  function CellImages(cs: seq<CharData>, bitmaps: seq<seq<Byte>>, cellWidth: nat, cellRows: nat): seq<seq<Byte>>
    requires |cs| == |bitmaps|
  {
    seq(|cs|, i requires 0 <= i < |cs| => Rows(cs[i], bitmaps[i], cellRows, cellWidth))
  }

  lemma CellImagesUniform(cs: seq<CharData>, bitmaps: seq<seq<Byte>>, cellWidth: nat, cellRows: nat)
    requires |cs| == |bitmaps|
    ensures Uniform(CellImages(cs, bitmaps, cellWidth, cellRows), cellRows * cellWidth)
  {
    forall k | 0 <= k < |cs|
      ensures |CellImages(cs, bitmaps, cellWidth, cellRows)[k]| == cellRows * cellWidth
    {
      RowsLength(cs[k], bitmaps[k], cellRows, cellWidth);
    }
  }

  /** The texture array's texels: the cells of all characters, in character order. */
  function Atlas(cs: seq<CharData>, bitmaps: seq<seq<Byte>>, cellWidth: nat, cellRows: nat): seq<Byte>
    requires |cs| == |bitmaps|
  {
    Flatten(CellImages(cs, bitmaps, cellWidth, cellRows), |cs|)
  }

  /** The texture array holds one cell of `maxWidth * maxRows` texels per character. */
  lemma AtlasLength(cs: seq<CharData>, bitmaps: seq<seq<Byte>>, cellWidth: nat, cellRows: nat)
    requires |cs| == |bitmaps|
    ensures |Atlas(cs, bitmaps, cellWidth, cellRows)| == |cs| * (cellRows * cellWidth)
  {
    CellImagesUniform(cs, bitmaps, cellWidth, cellRows);
    FlattenLength(CellImages(cs, bitmaps, cellWidth, cellRows), cellRows * cellWidth, |cs|);
  }

  /** Below the glyph a cell holds only zero rows. */
  lemma {:induction false} RowsPastGlyph(c: CharData, bitmap: seq<Byte>, n: nat, cellWidth: nat)
    requires c.rows <= n
    ensures |Rows(c, bitmap, c.rows, cellWidth)| <= |Rows(c, bitmap, n, cellWidth)|
    ensures Rows(c, bitmap, n, cellWidth)
            == Rows(c, bitmap, c.rows, cellWidth) + Zeros(|Rows(c, bitmap, n, cellWidth)| - |Rows(c, bitmap, c.rows, cellWidth)|)
  {
    if n > c.rows {
      RowsPastGlyph(c, bitmap, n - 1, cellWidth);
      var h := |Rows(c, bitmap, c.rows, cellWidth)|;
      assert PaddedRow(c, bitmap, n - 1, cellWidth) == Zeros(cellWidth);
      ZerosSplit(|Rows(c, bitmap, n - 1, cellWidth)| - h, cellWidth);
      AppendAssoc(Rows(c, bitmap, c.rows, cellWidth), Zeros(|Rows(c, bitmap, n - 1, cellWidth)| - h), Zeros(cellWidth));
    }
  }

  /** While rows remain, one more row still fits in the cell. */
  lemma {:induction false} RowsGrow(c: CharData, bitmap: seq<Byte>, y: nat, n: nat, cellWidth: nat)
    requires y < n
    ensures |Rows(c, bitmap, y, cellWidth)| + cellWidth <= |Rows(c, bitmap, n, cellWidth)|
  {
    if y < n - 1 {
      RowsGrow(c, bitmap, y, n - 1, cellWidth);
    }
  }

  /** `std::copy_n(src + from, count, dst + to)`. */
  method CopyN(src: seq<Byte>, from: nat, count: nat, dst: array<Byte>, to: nat)
    requires from + count <= |src| && to + count <= dst.Length
    modifies dst
    ensures dst[..] == old(dst[..])[..to] + src[from..from + count] + old(dst[..])[to + count..]
  {
    var k := 0;
    while k < count
      invariant 0 <= k <= count
      invariant forall j :: 0 <= j < dst.Length ==> dst[j] == if to <= j < to + k then src[from + j - to] else old(dst[j])
    {
      dst[to + k] := src[from + k];
      k := k + 1;
    }
  }

  /** One row copy: the texels after the filled part start with `Zeros`, which is overwritten. */
  lemma CopyIntoZeros(p: seq<Byte>, row: seq<Byte>, rest: nat, cellWidth: nat)
    requires |row| <= cellWidth <= rest
    ensures (p + Zeros(rest))[..|p|] + row + (p + Zeros(rest))[|p| + |row|..]
            == p + (row + Zeros(cellWidth - |row|)) + Zeros(rest - cellWidth)
  {
    assert (p + Zeros(rest))[..|p|] == p;
    assert (p + Zeros(rest))[|p| + |row|..] == Zeros(rest - |row|);
    ZerosSplit(cellWidth - |row|, rest - cellWidth);
  }

  /** The bytes `copy_n` takes for glyph row y, padded with zeros, are row y of the cell. */
  lemma GlyphRow(c: CharData, bitmap: seq<Byte>, cellWidth: nat, y: nat, start: nat)
    requires c.width <= cellWidth && y < c.rows
    requires start == y * c.width && start + c.width <= |bitmap|
    ensures bitmap[start..start + c.width] + Zeros(cellWidth - c.width) == PaddedRow(c, bitmap, y, cellWidth)
  {
    var row := bitmap[start..start + c.width] + Zeros(cellWidth - c.width);
    forall x | 0 <= x < cellWidth
      ensures row[x] == PaddedRow(c, bitmap, y, cellWidth)[x]
    {
      if x < c.width {
        assert row[x] == bitmap[start + x];
      }
    }
  }

  /** The buffer after one glyph row is copied over the zeros that follow the filled part. */
  lemma RowCopied(prefix: seq<Byte>, c: CharData, bitmap: seq<Byte>, cellWidth: nat, y: nat,
                  before: seq<Byte>, after: seq<Byte>, dst: nat, start: nat)
    requires c.width <= cellWidth && y < c.rows
    requires dst == |prefix| + |Rows(c, bitmap, y, cellWidth)| && dst + cellWidth <= |before|
    requires before == prefix + Rows(c, bitmap, y, cellWidth) + Zeros(|before| - dst)
    requires start == y * c.width && start + c.width <= |bitmap|
    requires after == before[..dst] + bitmap[start..start + c.width] + before[dst + c.width..]
    ensures after == prefix + Rows(c, bitmap, y + 1, cellWidth)
                     + Zeros(|before| - |prefix| - |Rows(c, bitmap, y + 1, cellWidth)|)
  {
    ghost var p := prefix + Rows(c, bitmap, y, cellWidth);
    ghost var row := bitmap[start..start + c.width];
    CopyIntoZeros(p, row, |before| - dst, cellWidth);
    assert after == p + (row + Zeros(cellWidth - c.width)) + Zeros(|before| - dst - cellWidth);
    GlyphRow(c, bitmap, cellWidth, y, start);
    AppendAssoc(prefix, Rows(c, bitmap, y, cellWidth), PaddedRow(c, bitmap, y, cellWidth));
  }

  /** One glyph row copied into its cell. */
  method CopyRow(buff: array<Byte>, ghost prefix: seq<Byte>, c: CharData, bitmap: seq<Byte>, offset: nat,
                 cellWidth: nat, y: nat)
    requires c.width <= cellWidth && y < c.rows && |bitmap| == c.width * c.rows && offset == |prefix|
    requires |prefix| + |Rows(c, bitmap, y, cellWidth)| + cellWidth <= buff.Length
    requires buff[..] == prefix + Rows(c, bitmap, y, cellWidth) + Zeros(buff.Length - |prefix| - |Rows(c, bitmap, y, cellWidth)|)
    modifies buff
    ensures |prefix| + |Rows(c, bitmap, y + 1, cellWidth)| <= buff.Length &&
            buff[..] == prefix + Rows(c, bitmap, y + 1, cellWidth)
                        + Zeros(buff.Length - |prefix| - |Rows(c, bitmap, y + 1, cellWidth)|)
  {
    ghost var before := buff[..];
    assert 0 <= y * c.width && y * c.width + c.width <= |bitmap| by {
      RowInside(y, c.width, c.rows);
    }
    assert 0 <= y * cellWidth && offset + y * cellWidth == |prefix| + |Rows(c, bitmap, y, cellWidth)| by {
      RowsLength(c, bitmap, y, cellWidth);
    }
    var start, dst := y * c.width, offset + y * cellWidth;
    CopyN(bitmap, start, c.width, buff, dst);
    RowCopied(prefix, c, bitmap, cellWidth, y, before, buff[..], dst, start);
  }

  /** The rows of one glyph: one `copy_n` per glyph row into the zero-filled buffer. */
  method RepackCell(buff: array<Byte>, ghost prefix: seq<Byte>, c: CharData, bitmap: seq<Byte>, offset: nat,
                    cellWidth: nat)
    requires c.width <= cellWidth && |bitmap| == c.width * c.rows && offset == |prefix|
    requires |prefix| + |Rows(c, bitmap, c.rows, cellWidth)| <= buff.Length
    requires buff[..] == prefix + Zeros(buff.Length - |prefix|)
    modifies buff
    ensures buff[..] == prefix + Rows(c, bitmap, c.rows, cellWidth)
                        + Zeros(buff.Length - |prefix| - |Rows(c, bitmap, c.rows, cellWidth)|)
  {
    var y := 0;
    while y < c.rows
      invariant 0 <= y <= c.rows
      invariant |prefix| + |Rows(c, bitmap, y, cellWidth)| <= buff.Length &&
                buff[..] == prefix + Rows(c, bitmap, y, cellWidth) + Zeros(buff.Length - |prefix| - |Rows(c, bitmap, y, cellWidth)|)
    {
      RowsGrow(c, bitmap, y, c.rows, cellWidth);
      CopyRow(buff, prefix, c, bitmap, offset, cellWidth, y);
      y := y + 1;
    }
  }

  /** The rows below the glyph are already zero, so the whole cell is in place. */
  lemma CellComplete(prefix: seq<Byte>, c: CharData, bitmap: seq<Byte>, cellWidth: nat, cellRows: nat, rest: nat)
    requires c.rows <= cellRows
    requires |Rows(c, bitmap, cellRows, cellWidth)| <= rest
    ensures |Rows(c, bitmap, c.rows, cellWidth)| <= rest &&
            prefix + Rows(c, bitmap, c.rows, cellWidth) + Zeros(rest - |Rows(c, bitmap, c.rows, cellWidth)|)
            == prefix + Rows(c, bitmap, cellRows, cellWidth) + Zeros(rest - |Rows(c, bitmap, cellRows, cellWidth)|)
  {
    var glyphRows, all := Rows(c, bitmap, c.rows, cellWidth), Rows(c, bitmap, cellRows, cellWidth);
    RowsPastGlyph(c, bitmap, cellRows, cellWidth);
    ZerosSplit(|all| - |glyphRows|, rest - |all|);
    AppendAssoc(prefix + glyphRows, Zeros(|all| - |glyphRows|), Zeros(rest - |all|));
  }

  /** The first i cells end where cell i starts, at offset `i * cellWidth * cellRows`. */
  lemma CellOffset(cs: seq<CharData>, bitmaps: seq<seq<Byte>>, cellWidth: nat, cellRows: nat, i: nat)
    requires |cs| == |bitmaps| && i <= |cs|
    ensures 0 <= i * cellWidth * cellRows == |Flatten(CellImages(cs, bitmaps, cellWidth, cellRows), i)|
  {
    CellImagesUniform(cs, bitmaps, cellWidth, cellRows);
    FlattenLength(CellImages(cs, bitmaps, cellWidth, cellRows), cellRows * cellWidth, i);
    MulAssoc(i, cellWidth, cellRows);
    MulComm(cellRows, cellWidth);
    MulNat(i, cellWidth * cellRows);
  }

  /** The buffer `newBuff` is allocated with exactly the texels of all cells. */
  lemma AtlasSize(cs: seq<CharData>, bitmaps: seq<seq<Byte>>, cellWidth: nat, cellRows: nat)
    requires |cs| == |bitmaps|
    ensures 0 <= cellWidth * cellRows * |cs| == |Atlas(cs, bitmaps, cellWidth, cellRows)|
  {
    CellOffset(cs, bitmaps, cellWidth, cellRows, |cs|);
    MulComm(|cs|, cellWidth);
    MulAssoc(cellWidth, |cs|, cellRows);
    MulComm(|cs|, cellRows);
    MulAssoc(cellWidth, cellRows, |cs|);
  }

  /** The repacking loop: a zero buffer of one cell per character, each glyph copied row by row into the top-left of its cell. */
  method Repack(chars: seq<CharData>, bitmaps: seq<seq<Byte>>, cellWidth: nat, cellRows: nat) returns (newBuff: array<Byte>)
    requires CellsFit(chars, bitmaps, cellWidth, cellRows)
    ensures newBuff[..] == Atlas(chars, bitmaps, cellWidth, cellRows)
  {
    AtlasSize(chars, bitmaps, cellWidth, cellRows);
    newBuff := new Byte[cellWidth * cellRows * |chars|](_ => 0);
    assert newBuff[..] == Zeros(newBuff.Length);
    ghost var cells := CellImages(chars, bitmaps, cellWidth, cellRows);
    var i := 0;
    while i < |chars|
      invariant 0 <= i <= |chars|
      invariant |Flatten(cells, i)| <= newBuff.Length &&
                newBuff[..] == Flatten(cells, i) + Zeros(newBuff.Length - |Flatten(cells, i)|)
    {
      RepackGlyph(newBuff, chars, bitmaps, cellWidth, cellRows, cells, i);
      i := i + 1;
    }
  }

  /** One iteration of the repacking loop: cell i is filled. */
  method RepackGlyph(newBuff: array<Byte>, chars: seq<CharData>, bitmaps: seq<seq<Byte>>, cellWidth: nat, cellRows: nat,
                     ghost cells: seq<seq<Byte>>, i: nat)
    requires CellsFit(chars, bitmaps, cellWidth, cellRows) && i < |chars|
    requires cells == CellImages(chars, bitmaps, cellWidth, cellRows)
    requires newBuff.Length == |Flatten(cells, |chars|)|
    requires |Flatten(cells, i)| <= newBuff.Length &&
             newBuff[..] == Flatten(cells, i) + Zeros(newBuff.Length - |Flatten(cells, i)|)
    modifies newBuff
    ensures |Flatten(cells, i + 1)| <= newBuff.Length &&
            newBuff[..] == Flatten(cells, i + 1) + Zeros(newBuff.Length - |Flatten(cells, i + 1)|)
  {
    FlattenPrefix(cells, i + 1, |chars|);
    CellOffset(chars, bitmaps, cellWidth, cellRows, i);
    ghost var prefix := Flatten(cells, i);
    var c, bitmap := chars[i], bitmaps[i];
    assert Flatten(cells, i + 1) == prefix + Rows(c, bitmap, cellRows, cellWidth);
    assert c.width <= cellWidth && c.rows <= cellRows && |bitmap| == c.width * c.rows;
    var offset := i * cellWidth * cellRows;
    RowsPastGlyph(c, bitmap, cellRows, cellWidth);
    RepackCell(newBuff, prefix, c, bitmap, offset, cellWidth);
    CellComplete(prefix, c, bitmap, cellWidth, cellRows, newBuff.Length - |prefix|);
  }

  /** The first m rows of a cell are a prefix of its first n rows. */
  lemma {:induction false} RowsPrefix(c: CharData, bitmap: seq<Byte>, m: nat, n: nat, cellWidth: nat)
    requires m <= n
    ensures |Rows(c, bitmap, m, cellWidth)| <= |Rows(c, bitmap, n, cellWidth)|
    ensures Rows(c, bitmap, n, cellWidth)[..|Rows(c, bitmap, m, cellWidth)|] == Rows(c, bitmap, m, cellWidth)
  {
    if m < n {
      RowsPrefix(c, bitmap, m, n - 1, cellWidth);
      var above := Rows(c, bitmap, n - 1, cellWidth);
      assert Rows(c, bitmap, n, cellWidth) == above + PaddedRow(c, bitmap, n - 1, cellWidth);
      assert (above + PaddedRow(c, bitmap, n - 1, cellWidth))[..|Rows(c, bitmap, m, cellWidth)|]
             == above[..|Rows(c, bitmap, m, cellWidth)|];
    }
  }

  /** Texel x of row y of a cell is pixel (x, y), x texels past the rows above it. */
  lemma RowsAt(c: CharData, bitmap: seq<Byte>, n: nat, cellWidth: nat, y: nat, x: nat)
    requires y < n && x < cellWidth
    ensures |Rows(c, bitmap, y, cellWidth)| + x < |Rows(c, bitmap, n, cellWidth)|
    ensures Rows(c, bitmap, n, cellWidth)[|Rows(c, bitmap, y, cellWidth)| + x] == Pixel(c, bitmap, x, y)
  {
    var k := |Rows(c, bitmap, y, cellWidth)| + x;
    var upTo := Rows(c, bitmap, y + 1, cellWidth);
    ConcatAt(Rows(c, bitmap, y, cellWidth), PaddedRow(c, bitmap, y, cellWidth), x);
    RowsPrefix(c, bitmap, y + 1, n, cellWidth);
    assert Rows(c, bitmap, n, cellWidth)[k] == Rows(c, bitmap, n, cellWidth)[..|upTo|][k];
  }

  /** Texel `y * cellWidth + x` of a cell is pixel (x, y) of its glyph. */
  lemma CellPixel(c: CharData, bitmap: seq<Byte>, cellWidth: nat, cellRows: nat, y: nat, x: nat) returns (r: nat)
    requires y < cellRows && x < cellWidth
    ensures r == y * cellWidth + x
    ensures r < |Rows(c, bitmap, cellRows, cellWidth)| && Rows(c, bitmap, cellRows, cellWidth)[r] == Pixel(c, bitmap, x, y)
  {
    RowsAt(c, bitmap, cellRows, cellWidth, y, x);
    RowsLength(c, bitmap, y, cellWidth);
    r := |Rows(c, bitmap, y, cellWidth)| + x;
  }

  /** Texel r of cell i is texel `i * cellWidth * cellRows + r` of the texture array. */
  lemma CellTexel(cs: seq<CharData>, bitmaps: seq<seq<Byte>>, cellWidth: nat, cellRows: nat, i: nat, r: nat)
    returns (k: nat)
    requires |cs| == |bitmaps| && i < |cs|
    requires r < |Rows(cs[i], bitmaps[i], cellRows, cellWidth)|
    ensures k == i * cellWidth * cellRows + r
    ensures k < |Atlas(cs, bitmaps, cellWidth, cellRows)| && Atlas(cs, bitmaps, cellWidth, cellRows)[k] == Rows(cs[i], bitmaps[i], cellRows, cellWidth)[r]
  {
    FlattenAt(CellImages(cs, bitmaps, cellWidth, cellRows), |cs|, i, r);
    CellOffset(cs, bitmaps, cellWidth, cellRows, i);
    k := |Flatten(CellImages(cs, bitmaps, cellWidth, cellRows), i)| + r;
  }

  /**
   * The texel at `i*W*H + y*W + x` is pixel (x, y) of glyph i: its bitmap
   * byte inside the glyph and 0 in the rest of the cell.
   */
  lemma AtlasPixel(cs: seq<CharData>, bitmaps: seq<seq<Byte>>, cellWidth: nat, cellRows: nat, i: nat, y: nat, x: nat)
    returns (k: nat)
    requires |cs| == |bitmaps| && i < |cs| && y < cellRows && x < cellWidth
    ensures k == i * cellWidth * cellRows + y * cellWidth + x
    ensures k < |Atlas(cs, bitmaps, cellWidth, cellRows)| && Atlas(cs, bitmaps, cellWidth, cellRows)[k] == Pixel(cs[i], bitmaps[i], x, y)
  {
    var r := CellPixel(cs[i], bitmaps[i], cellWidth, cellRows, y, x);
    k := CellTexel(cs, bitmaps, cellWidth, cellRows, i, r);
  }

  /** The loaded glyphs fit the cell of the componentwise maximum size. */
  lemma LoadedCellsFit(glyphs: seq<Option<Glyph>>)
    requires AllFit(glyphs)
    ensures CellsFit(Chars(glyphs), Bitmaps(glyphs), MaxWidth(Chars(glyphs)), MaxRows(Chars(glyphs)))
  {
    var cs, bs := Chars(glyphs), Bitmaps(glyphs);
    forall k | 0 <= k < |cs|
      ensures |bs[k]| == cs[k].width * cs[k].rows
    {
      if glyphs[k].Some? {
        assert GlyphFits(glyphs[k].value);
      }
    }
  }

  /** `LoadFont` after the face has opened: the font record it stores under its name. */
  function LoadedFont(name: string, glyphs: seq<Option<Glyph>>, texture: nat): (f: FontData)
    requires AllFit(glyphs)
    ensures |f.chars| == |glyphs| && f.fontScale == FontScale && f.fontName == name
    ensures forall c :: 0 <= c < |glyphs| ==> f.chars[c].width <= f.maxWidth && f.chars[c].rows <= f.maxRows
    ensures |f.atlas| == |glyphs| * (f.maxRows * f.maxWidth)
  {
    var cs := Chars(glyphs);
    LoadedCellsFit(glyphs);
    AtlasLength(cs, Bitmaps(glyphs), MaxWidth(cs), MaxRows(cs));
    FontData(name, cs, MaxWidth(cs), MaxRows(cs), texture, FontScale,
             Atlas(cs, Bitmaps(glyphs), MaxWidth(cs), MaxRows(cs)))
  }

  /**
   * Texel `c*W*H + y*W + x` of a loaded font's texture array, for a cell of
   * W x H texels, is the glyph's bitmap byte (x, y) when character c loaded
   * and (x, y) lies inside its bitmap, and 0 otherwise.
   */
  lemma FontTexel(name: string, glyphs: seq<Option<Glyph>>, texture: nat, c: nat, y: nat, x: nat) returns (k: nat)
    requires AllFit(glyphs) && c < |glyphs|
    requires x < LoadedFont(name, glyphs, texture).maxWidth && y < LoadedFont(name, glyphs, texture).maxRows
    ensures k == c * LoadedFont(name, glyphs, texture).maxWidth * LoadedFont(name, glyphs, texture).maxRows
                 + y * LoadedFont(name, glyphs, texture).maxWidth + x
    ensures k < |LoadedFont(name, glyphs, texture).atlas|
    ensures glyphs[c].Some? && x < glyphs[c].value.width && y < glyphs[c].value.rows ==>
              0 <= y * glyphs[c].value.width + x < |glyphs[c].value.buffer| &&
              LoadedFont(name, glyphs, texture).atlas[k] == glyphs[c].value.buffer[y * glyphs[c].value.width + x]
    ensures !(glyphs[c].Some? && x < glyphs[c].value.width && y < glyphs[c].value.rows) ==>
              LoadedFont(name, glyphs, texture).atlas[k] == 0
  {
    var cs, bs := Chars(glyphs), Bitmaps(glyphs);
    k := AtlasPixel(cs, bs, MaxWidth(cs), MaxRows(cs), c, y, x);
    if glyphs[c].Some? && x < glyphs[c].value.width && y < glyphs[c].value.rows {
      var g := glyphs[c].value;
      assert GlyphFits(g);
      MulNat(g.width, g.rows);
      PixelInside(cs[c], bs[c], x, y);
      assert bs[c] == g.buffer[..g.width * g.rows];
    }
  }

  // ---------------------------------------------------------------------
  // Highlight markup and glyph emission

  /** `std::string_view::find_first_of` for one character. */
  function FindFirst(s: string, ch: char): (r: Option<nat>)
    ensures r.None? <==> ch !in s
    ensures r.Some? ==> r.value < |s| && s[r.value] == ch && ch !in s[..r.value]
  {
    if s == [] then None
    else if s[0] == ch then Some(0)
    else match FindFirst(s[1..], ch)
      case None => None
      case Some(k) => assert s[1..][..k] == s[1..k + 1]; Some(k + 1)
  }

  /** The outcome of `std::from_chars` into a `uint8_t`. */
  datatype FromCharsResult = InvalidArgument | OutOfRange | Parsed(value: Byte)

  /** Base-10 `from_chars` into `uint8_t`: the leading digits are read, the rest ignored. */
  function FromChars(s: string): (r: FromCharsResult)
    ensures r.InvalidArgument? <==> (s == [] || !Decimal.IsDigit(s[0]))
    ensures r.Parsed? ==> r.value == Decimal.DigitsValue(s[..Decimal.DigitRun(s)])
    ensures r.OutOfRange? ==> Decimal.DigitsValue(s[..Decimal.DigitRun(s)]) > 255
  {
    var run := Decimal.DigitRun(s);
    if run == 0 then InvalidArgument
    else
      var v := Decimal.DigitsValue(s[..run]);
      if v <= 255 then Parsed(v) else OutOfRange
  }

  /** `glm::vec2(size) / glm::vec2(maxCharSize)` per component; an empty cell gives 0. */
  function Ratio(a: nat, b: nat): real
  {
    if b == 0 then 0.0 else a as real / b as real
  }

  /** The two triangles of one glyph with its pen at penX. */
  function Quad(f: FontData, cd: CharData, penX: int, highlightId: Byte): (r: seq<TextVertex>)
    requires f.fontScale > 0
    ensures |r| == 6 && r[0] == r[3] && r[2] == r[4]
    ensures forall k :: 0 <= k < 6 ==> r[k].textureId == cd.textureId && r[k].highlightId == highlightId
  {
    var xPos := (penX + cd.bearingX) as real;
    var yPos := (0 - (cd.rows - cd.bearingY)) as real;
    var w, h := cd.width as real, cd.rows as real;
    var u, v := Ratio(cd.width, f.maxWidth), Ratio(cd.rows, f.maxRows);
    var s := 1.0 / f.fontScale as real;
    [TextVertex(Vec2(s * xPos, s * (yPos + h)), Vec2(0.0, 0.0), cd.textureId, highlightId),
     TextVertex(Vec2(s * xPos, s * yPos), Vec2(0.0, v), cd.textureId, highlightId),
     TextVertex(Vec2(s * (xPos + w), s * yPos), Vec2(u, v), cd.textureId, highlightId),
     TextVertex(Vec2(s * xPos, s * (yPos + h)), Vec2(0.0, 0.0), cd.textureId, highlightId),
     TextVertex(Vec2(s * (xPos + w), s * yPos), Vec2(u, v), cd.textureId, highlightId),
     TextVertex(Vec2(s * (xPos + w), s * (yPos + h)), Vec2(u, 0.0), cd.textureId, highlightId)]
  }

  /** A `$` that ends the text or precedes anything but `<` and `$` stops processing. */
  predicate StrayDollar(text: string, i: nat)
    requires i < |text|
  {
    text[i] == '$' && (i + 1 == |text| || (text[i + 1] != '$' && text[i + 1] != '<'))
  }

  /** What a `$<` tag does: stop processing, or resume after its `>` with a highlight id. */
  datatype TagResult = Stop | Resume(next: nat, highlightId: Byte)

  /**
   * The tag `$<id>` starting at text[i]: processing resumes just past the
   * first `>`, with the id read from the leading digits between `<` and `>`
   * when it fits a byte and the current id when it does not; without a `>`
   * or without a leading digit processing stops.
   */
  function Tag(text: string, i: nat, highlightId: Byte): (r: TagResult)
    requires i + 1 < |text| && text[i] == '$' && text[i + 1] == '<'
    ensures r.Resume? ==> i + 3 <= r.next <= |text| && text[r.next - 1] == '>' && '>' !in text[i + 2..r.next - 1]
    ensures r.Stop? <==> '>' !in text[i + 2..] || FromChars(text[i + 2..][..FindFirst(text[i + 2..], '>').value]).InvalidArgument?
  {
    var from := text[i + 2..];
    match FindFirst(from, '>')
    case None => Stop
    case Some(to) =>
      assert text[i + 2..i + 2 + to] == from[..to];
      match FromChars(from[..to])
      case InvalidArgument => Stop
      case OutOfRange => Resume(i + 3 + to, highlightId)
      case Parsed(id) => Resume(i + 3 + to, id)
  }

  /** One drawn character: its record, the pen position and the highlight id in force. */
  datatype Placement = Placement(cd: CharData, penX: int, highlightId: Byte)

  /**
   * The characters text[i..] draws with the pen at penX and the current
   * highlight id: `$<id>` changes the id, `$$` is a literal `$`, character
   * codes outside the font draw nothing, and each other character is placed
   * and advances the pen by `advance >> 6`.
   */
  function Layout(f: FontData, text: string, i: nat, penX: int, highlightId: Byte): (r: seq<Placement>)
    requires i <= |text|
    ensures |r| <= |text| - i
    decreases |text| - i
  {
    if i == |text| || StrayDollar(text, i) then []
    else if text[i] == '$' && text[i + 1] == '<' then
      match Tag(text, i, highlightId)
      case Stop => []
      case Resume(next, id) => Layout(f, text, next, penX, id)
    else
      var next := if text[i] == '$' then i + 2 else i + 1;
      if text[i] as int >= |f.chars| then Layout(f, text, next, penX, highlightId)
      else
        var cd := f.chars[text[i] as int];
        [Placement(cd, penX, highlightId)] + Layout(f, text, next, penX + cd.advance / 64, highlightId)
  }

  /** The character drawn at text[i]: a plain character, or the second `$` of `$$`. */
  lemma LayoutPlaces(f: FontData, text: string, i: nat, penX: int, highlightId: Byte)
    requires i < |text| && (text[i] == '$' ==> i + 1 < |text| && text[i + 1] == '$')
    requires text[i] as int < |f.chars|
    ensures Layout(f, text, i, penX, highlightId)
            == [Placement(f.chars[text[i] as int], penX, highlightId)]
               + Layout(f, text, if text[i] == '$' then i + 2 else i + 1, penX + f.chars[text[i] as int].advance / 64, highlightId)
  {
  }

  /** A character outside the font draws nothing and leaves the pen where it is. */
  lemma LayoutSkips(f: FontData, text: string, i: nat, penX: int, highlightId: Byte)
    requires i < |text| && (text[i] == '$' ==> i + 1 < |text| && text[i + 1] == '$')
    requires text[i] as int >= |f.chars|
    ensures Layout(f, text, i, penX, highlightId) == Layout(f, text, if text[i] == '$' then i + 2 else i + 1, penX, highlightId)
  {
  }

  /** After a tag processing goes on where the tag says. */
  lemma LayoutTag(f: FontData, text: string, i: nat, penX: int, highlightId: Byte)
    requires i + 1 < |text| && text[i] == '$' && text[i + 1] == '<'
    ensures Tag(text, i, highlightId).Stop? ==> Layout(f, text, i, penX, highlightId) == []
    ensures Tag(text, i, highlightId).Resume? ==>
              Layout(f, text, i, penX, highlightId)
              == Layout(f, text, Tag(text, i, highlightId).next, penX, Tag(text, i, highlightId).highlightId)
  {
  }

  /** `find_first_of` finds a `>` that no earlier `>` precedes. */
  lemma FindFirstAt(s: string, ch: char, k: nat)
    requires k < |s| && s[k] == ch && ch !in s[..k]
    ensures FindFirst(s, ch) == Some(k)
  {
  }

  /** The characters of a tag `$<t>` at text[i]. */
  lemma TagChars(text: string, i: nat, t: string)
    requires i + 3 + |t| <= |text| && text[i..i + 3 + |t|] == "$<" + t + ">"
    ensures text[i] == '$' && text[i + 1] == '<'
    ensures text[i + 2..][|t|] == '>' && text[i + 2..][..|t|] == t
  {
    var tag := text[i..i + 3 + |t|];
    assert text[i] == tag[0] && text[i + 1] == tag[1] && text[i + 2..][|t|] == tag[|t| + 2];
    forall k | 0 <= k < |t| ensures text[i + 2..][..|t|][k] == t[k] {
      assert text[i + 2..][..|t|][k] == tag[k + 2] == ("$<" + t + ">")[k + 2];
    }
  }

  /** `from_chars` reads the decimal text of n back as n, or reports it out of range. */
  lemma FromCharsNatText(n: nat)
    ensures FromChars(Decimal.NatText(n)) == if n <= 255 then Parsed(n as Byte) else OutOfRange
  {
    var t := Decimal.NatText(n);
    var r := Decimal.DigitRun(t);
    assert t[..r] == t;
    Decimal.NatTextValue(n);
  }

  /** The tag `$<n>` resumes just past its `>`, with id n when n fits a byte. */
  lemma TagOfNumber(text: string, i: nat, highlightId: Byte, n: nat)
    requires i + 3 + |Decimal.NatText(n)| <= |text|
    requires text[i..i + 3 + |Decimal.NatText(n)|] == "$<" + Decimal.NatText(n) + ">"
    ensures i + 1 < |text| && text[i] == '$' && text[i + 1] == '<'
    ensures Tag(text, i, highlightId) == Resume(i + 3 + |Decimal.NatText(n)|, if n <= 255 then n as Byte else highlightId)
  {
    var t := Decimal.NatText(n);
    TagChars(text, i, t);
    var from := text[i + 2..];
    assert '>' !in from[..|t|] by {
      forall k | 0 <= k < |t| ensures from[..|t|][k] != '>' {
        assert Decimal.IsDigit(t[k]);
      }
    }
    FindFirstAt(from, '>', |t|);
    FromCharsNatText(n);
  }

  /**
   * The markup `$<n>` with n written in decimal sets the highlight id of what
   * follows to n, and leaves it as it was when n does not fit a byte.
   */
  lemma MarkupSetsHighlight(f: FontData, text: string, i: nat, penX: int, highlightId: Byte, n: nat)
    requires i + 3 + |Decimal.NatText(n)| <= |text|
    requires text[i..i + 3 + |Decimal.NatText(n)|] == "$<" + Decimal.NatText(n) + ">"
    ensures Layout(f, text, i, penX, highlightId)
            == Layout(f, text, i + 3 + |Decimal.NatText(n)|, penX, if n <= 255 then n as Byte else highlightId)
  {
    TagOfNumber(text, i, highlightId, n);
    LayoutTag(f, text, i, penX, highlightId);
  }

  /**
   * A tag stops processing, so nothing after it is drawn, when no `>` follows
   * its `<` or no digit follows its `<`.
   */
  lemma MarkupStops(f: FontData, text: string, i: nat, penX: int, highlightId: Byte)
    requires i + 1 < |text| && text[i] == '$' && text[i + 1] == '<'
    requires '>' !in text[i + 2..] || i + 2 == |text| || !Decimal.IsDigit(text[i + 2])
    ensures Layout(f, text, i, penX, highlightId) == []
  {
    var from := text[i + 2..];
    var to := FindFirst(from, '>');
    if to.Some? {
      if to.value == 0 {
        assert from[..0] == [];
      } else {
        assert from[..to.value][0] == text[i + 2];
      }
    }
    LayoutTag(f, text, i, penX, highlightId);
  }

  /**
   * Text without `$` whose every character is in the font draws each of its
   * characters, in order, with the highlight id unchanged.
   */
  lemma {:induction false} PlainRun(f: FontData, text: string, i: nat, penX: int, highlightId: Byte)
    requires i <= |text|
    requires forall k :: i <= k < |text| ==> text[k] != '$' && text[k] as int < |f.chars|
    ensures |Layout(f, text, i, penX, highlightId)| == |text| - i
    ensures forall k :: 0 <= k < |text| - i ==>
              Layout(f, text, i, penX, highlightId)[k].cd == f.chars[text[i + k] as int] &&
              Layout(f, text, i, penX, highlightId)[k].highlightId == highlightId
    decreases |text| - i
  {
    if i < |text| {
      var cd := f.chars[text[i] as int];
      var rest := Layout(f, text, i + 1, penX + cd.advance / 64, highlightId);
      PlainRun(f, text, i + 1, penX + cd.advance / 64, highlightId);
      LayoutPlaces(f, text, i, penX, highlightId);
      forall k | 0 <= k < |text| - i
        ensures Layout(f, text, i, penX, highlightId)[k].cd == f.chars[text[i + k] as int] &&
                Layout(f, text, i, penX, highlightId)[k].highlightId == highlightId
      {
        if k > 0 {
          assert Layout(f, text, i, penX, highlightId)[k] == rest[k - 1];
          assert i + 1 + (k - 1) == i + k;
        }
      }
    }
  }

  /** The six vertices of each placed character, in order. */
  function Vertices(f: FontData, ps: seq<Placement>): (r: seq<TextVertex>)
    requires f.fontScale > 0
    ensures |r| == 6 * |ps|
  {
    if ps == [] then [] else Quad(f, ps[0].cd, ps[0].penX, ps[0].highlightId) + Vertices(f, ps[1..])
  }

  /** A `DrawableText`: the vertices uploaded to its buffer and their count. */
  class DrawableText {
    const fontData: FontData
    const vao: nat
    const vbo: nat
    var vertices: seq<TextVertex>
    var drawCount: nat

    /** The constructor: the markup loop of `DrawableText`, then the upload. */
    constructor (fontData: FontData, text: string, vao: nat, vbo: nat)
      requires fontData.fontScale > 0
      ensures this.fontData == fontData && this.vao == vao && this.vbo == vbo
      ensures vertices == Vertices(fontData, Layout(fontData, text, 0, 0, 1)) && drawCount == |vertices|
      ensures drawCount <= 6 * |text|
    {
      var verts := GenerateVertices(fontData, text);
      this.fontData, this.vao, this.vbo := fontData, vao, vbo;
      vertices, drawCount := verts, |verts|;
    }
  }

  /** The six vertices pushed for one character with the pen at penX. */
  method CharQuad(f: FontData, charData: CharData, penX: int, highlightId: Byte) returns (quad: seq<TextVertex>)
    requires f.fontScale > 0
    ensures quad == Quad(f, charData, penX, highlightId)
  {
    var xPos := (penX + charData.bearingX) as real;
    var yPos := (0 - (charData.rows - charData.bearingY)) as real;
    var w, h := charData.width as real, charData.rows as real;
    var u, v := Ratio(charData.width, f.maxWidth), Ratio(charData.rows, f.maxRows);
    var scale := 1.0 / f.fontScale as real;
    quad := [TextVertex(Vec2(scale * xPos, scale * (yPos + h)), Vec2(0.0, 0.0), charData.textureId, highlightId),
             TextVertex(Vec2(scale * xPos, scale * yPos), Vec2(0.0, v), charData.textureId, highlightId),
             TextVertex(Vec2(scale * (xPos + w), scale * yPos), Vec2(u, v), charData.textureId, highlightId),
             TextVertex(Vec2(scale * xPos, scale * (yPos + h)), Vec2(0.0, 0.0), charData.textureId, highlightId),
             TextVertex(Vec2(scale * (xPos + w), scale * yPos), Vec2(u, v), charData.textureId, highlightId),
             TextVertex(Vec2(scale * (xPos + w), scale * (yPos + h)), Vec2(u, 0.0), charData.textureId, highlightId)];
    ghost var expected := Quad(f, charData, penX, highlightId);
    assert quad[0] == expected[0] && quad[1] == expected[1] && quad[2] == expected[2] && quad[5] == expected[5];
  }

  /** The vertices of one more placed character follow those placed before. */
  lemma {:induction false} VerticesSnoc(f: FontData, ps: seq<Placement>, p: Placement)
    requires f.fontScale > 0
    ensures Vertices(f, ps + [p]) == Vertices(f, ps) + Quad(f, p.cd, p.penX, p.highlightId)
  {
    if ps != [] {
      VerticesSnoc(f, ps[1..], p);
      assert (ps + [p])[1..] == ps[1..] + [p];
      AppendAssoc(Quad(f, ps[0].cd, ps[0].penX, ps[0].highlightId), Vertices(f, ps[1..]), Quad(f, p.cd, p.penX, p.highlightId));
    } else {
      assert [p][1..] == [];
    }
  }

  /** Drawing the character at text[i] keeps the vertex loop's invariant. */
  lemma DrawStep(f: FontData, text: string, i: nat, next: nat, cd: CharData, penX: int, highlightId: Byte,
                 placed: seq<Placement>, all: seq<Placement>, vertices: seq<TextVertex>, quad: seq<TextVertex>)
    requires f.fontScale > 0 && i < |text| && (text[i] == '$' ==> i + 1 < |text| && text[i + 1] == '$')
    requires next == (if text[i] == '$' then i + 2 else i + 1)
    requires text[i] as int < |f.chars| && cd == f.chars[text[i] as int] && quad == Quad(f, cd, penX, highlightId)
    requires placed + Layout(f, text, i, penX, highlightId) == all && vertices == Vertices(f, placed)
    ensures placed + [Placement(cd, penX, highlightId)] + Layout(f, text, next, penX + cd.advance / 64, highlightId) == all
    ensures vertices + quad == Vertices(f, placed + [Placement(cd, penX, highlightId)])
  {
    LayoutPlaces(f, text, i, penX, highlightId);
    VerticesSnoc(f, placed, Placement(cd, penX, highlightId));
    AppendAssoc(placed, [Placement(cd, penX, highlightId)], Layout(f, text, next, penX + cd.advance / 64, highlightId));
  }

  /**
   * The drawing branch of the vertex loop, for the character at text[i]
   * (the second `$` of `$$` when i0 < i): its quad is appended and the pen
   * advances by `advance >> 6`.
   */
  method DrawChar(f: FontData, text: string, ghost i0: nat, i: nat, penX: int, highlightId: Byte,
                  ghost placed: seq<Placement>, ghost all: seq<Placement>, vertices: seq<TextVertex>)
    returns (vertices': seq<TextVertex>, penX': int, ghost placed': seq<Placement>)
    requires f.fontScale > 0 && i < |text| && text[i] as int < |f.chars|
    requires (i == i0 && text[i0] != '$') || (i == i0 + 1 && text[i0] == '$' && text[i] == '$')
    requires placed + Layout(f, text, i0, penX, highlightId) == all && vertices == Vertices(f, placed)
    ensures placed' + Layout(f, text, i + 1, penX', highlightId) == all && vertices' == Vertices(f, placed')
  {
    var charData := f.chars[text[i] as int];
    var quad := CharQuad(f, charData, penX, highlightId);
    penX' := penX + charData.advance / 64;
    vertices' := vertices + quad;
    DrawStep(f, text, i0, i + 1, charData, penX, highlightId, placed, all, vertices, quad);
    placed' := placed + [Placement(charData, penX, highlightId)];
  }

  /**
   * The tag branch of the vertex loop, with i at the `<` of `$<`: whether the
   * loop breaks, and otherwise the index of the tag's `>` and the highlight id.
   */
  method ReadTag(text: string, i: nat, highlightId: Byte)
    returns (stop: bool, i': nat, highlightId': Byte)
    requires 1 <= i < |text| && text[i - 1] == '$' && text[i] == '<'
    ensures stop <==> Tag(text, i - 1, highlightId).Stop?
    ensures !stop ==> Tag(text, i - 1, highlightId) == Resume(i' + 1, highlightId')
  {
    i', highlightId' := i, highlightId;
    var highlightStrFrom := text[i + 1..];
    var highlightStrTo := FindFirst(highlightStrFrom, '>');
    if highlightStrTo.None? {
      return true, i', highlightId';
    }
    var result := FromChars(highlightStrFrom[..highlightStrTo.value]);
    if result.InvalidArgument? {
      return true, i', highlightId';
    }
    if result.Parsed? {
      highlightId' := result.value;
    }
    i' := i + highlightStrTo.value + 1;
    stop := false;
  }

  /**
   * The `$` branch of the vertex loop, with text[i] == '$': whether the loop
   * breaks, whether a tag was read (the loop then continues at i'), and
   * otherwise i' at the second `$` of `$$`, which is drawn.
   */
  method Markup(ghost f: FontData, text: string, i: nat, ghost penX: int, highlightId: Byte)
    returns (stop: bool, tagged: bool, i': nat, highlightId': Byte)
    requires i < |text| && text[i] == '$'
    ensures stop ==> Layout(f, text, i, penX, highlightId) == []
    ensures !stop && tagged ==> i < i' <= |text| && Layout(f, text, i, penX, highlightId) == Layout(f, text, i', penX, highlightId')
    ensures !stop && !tagged ==> i' == i + 1 < |text| && text[i'] == '$' && highlightId' == highlightId
  {
    stop, tagged, i', highlightId' := false, false, i + 1, highlightId;
    if i' >= |text| {
      return true, false, i', highlightId';
    }
    var c := text[i'];
    if c != '<' && c != '$' {
      return true, false, i', highlightId';
    }
    if c == '<' {
      LayoutTag(f, text, i, penX, highlightId);
      stop, i', highlightId' := ReadTag(text, i', highlightId);
      if stop {
        return;
      }
      i' := i' + 1;
      tagged := true;
    }
  }

  /** The vertex loop, with the index advanced by hand over the markup. */
  method GenerateVertices(f: FontData, text: string) returns (vertices: seq<TextVertex>)
    requires f.fontScale > 0
    ensures vertices == Vertices(f, Layout(f, text, 0, 0, 1))
  {
    ghost var all := Layout(f, text, 0, 0, 1);
    ghost var placed: seq<Placement> := [];
    vertices := [];
    var penX := 0;
    var highlightId: Byte := 1;
    var i := 0;
    while i < |text|
      invariant 0 <= i <= |text|
      invariant placed + Layout(f, text, i, penX, highlightId) == all
      invariant vertices == Vertices(f, placed)
      decreases |text| - i
    {
      ghost var i0 := i;
      var c := text[i];
      if c == '$' {
        var stop, tagged;
        stop, tagged, i, highlightId := Markup(f, text, i, penX, highlightId);
        if stop {
          break;
        }
        if tagged {
          continue;
        }
        c := text[i];
      }
      if c as int >= |f.chars| {
        i := i + 1;
        LayoutSkips(f, text, i0, penX, highlightId);
        continue;
      }
      vertices, penX, placed := DrawChar(f, text, i0, i, penX, highlightId, placed, all, vertices);
      i := i + 1;
    }
    assert placed == all;
  }

  /**
   * The static state of `Text`: the loaded fonts by name.  FreeType's
   * outcomes and the GL texture name are parameters.
   */
  class Fonts {
    var fonts: map<string, FontData>

    /** Every stored font was loaded under its own name at the fixed scale. */
    predicate Valid()
      reads this
    {
      forall name :: name in fonts ==>
        fonts[name].fontName == name && fonts[name].fontScale == FontScale && |fonts[name].chars| == CharCount
    }

    constructor ()
      ensures fonts == map[] && Valid()
    {
      fonts := map[];
    }

    /**
     * Init: when the FreeType library starts, the built-in Arial font is
     * loaded; otherwise nothing happens.
     */
    method Init(libraryOk: bool, faceOk: bool, glyphs: seq<Option<Glyph>>, texture: nat)
      requires Valid() && |glyphs| == CharCount && AllFit(glyphs)
      modifies this
      ensures Valid()
      ensures fonts == if libraryOk && faceOk then old(fonts)["arial" := LoadedFont("arial", glyphs, texture)] else old(fonts)
    {
      if !libraryOk {
        return;
      }
      LoadFont("arial", faceOk, glyphs, texture);
    }

    /**
     * LoadFont: a face that fails to open leaves the fonts as they were;
     * otherwise the font is (re)stored under its name with the 128 glyphs
     * FreeType rendered, repacked into one texture array.
     */
    method LoadFont(name: string, faceOk: bool, glyphs: seq<Option<Glyph>>, texture: nat)
      requires Valid() && |glyphs| == CharCount && AllFit(glyphs)
      modifies this
      ensures Valid()
      ensures fonts == if faceOk then old(fonts)[name := LoadedFont(name, glyphs, texture)] else old(fonts)
    {
      if !faceOk {
        return;
      }
      var chars, bitmaps, maxWidth, maxRows := LoadGlyphs(glyphs);
      LoadedCellsFit(glyphs);
      var newBuff := Repack(chars, bitmaps, maxWidth, maxRows);
      fonts := fonts[name := FontData(name, chars, maxWidth, maxRows, texture, FontScale, newBuff[..])];
    }

    /** UnloadFont: the name no longer maps to a font; the others stay. */
    method UnloadFont(name: string)
      requires Valid()
      modifies this
      ensures Valid() && fonts == old(fonts) - {name}
    {
      fonts := fonts - {name};
    }

    /** CreateText: no text for a font not loaded; otherwise a new text drawn with that font. */
    method CreateText(fontName: string, text: string, vao: nat, vbo: nat) returns (t: DrawableText?)
      requires Valid()
      ensures fontName !in fonts ==> t == null
      ensures fontName in fonts ==>
                t != null && fresh(t) && t.fontData == fonts[fontName] &&
                t.vertices == Vertices(fonts[fontName], Layout(fonts[fontName], text, 0, 0, 1))
    {
      if fontName !in fonts {
        return null;
      }
      t := new DrawableText(fonts[fontName], text, vao, vbo);
    }
  }
}
