/**
 The glyph cache of rsFont.cpp: a shelf allocator over a 1024x256 texture, the
 glyph records of the active fonts, and the batched quad buffer.

 FreeType is an abstract face: a function from characters to glyph indices and
 one from glyph indices to an optional loaded slot. The screen is the sequence
 `drawn` of sprites, one for every quad a draw command rasterises, each with the
 texels that its texture rectangle held at the time of the draw.
 */
module GlyphCache {
  import opened Common

  const CACHE_WIDTH := 1024
  const CACHE_HEIGHT := 256
  const MAX_QUADS := 1024
  const TALLEST_LINE := 88

  // ---------------------------------------------------------------- FreeType

  datatype Bitmap = Bitmap(width: nat, rows: nat, buffer: seq<byte>) {
    predicate WellFormed() {
      |buffer| == rows * width
    }

    function Texel(u: int, v: int): byte
      requires WellFormed() && 0 <= u < width && 0 <= v < rows
    {
      BufferIndex(u, v);
      buffer[v * width + u]
    }

    lemma BufferIndex(u: int, v: int)
      requires 0 <= u < width && 0 <= v < rows
      ensures 0 <= v * width + u < rows * width
    {
      assert v * width <= (rows - 1) * width;
    }

    ghost function Row(v: int): (row: seq<byte>)
      requires WellFormed() && 0 <= v < rows
      ensures |row| == width && forall u :: 0 <= u < width ==> row[u] == Texel(u, v)
    {
      assert (v + 1) * width <= rows * width;
      buffer[v * width .. (v + 1) * width]
    }

    /** The bitmap as rows of texels. */
    ghost function Rows(): seq<seq<byte>>
      requires WellFormed()
    {
      seq(rows, v requires 0 <= v < rows => Row(v))
    }
  }

  datatype GlyphSlot = GlyphSlot(advanceX: int, left: int, top: int, bitmap: Bitmap)

  datatype Face = Face(charIndex: int -> int, load: int -> Option<GlyphSlot>) {
    function Load(i: int): Option<GlyphSlot> {
      load(i)
    }

    ghost predicate WellFormed() {
      forall i :: Load(i).Some? ==> Load(i).value.bitmap.WellFormed()
    }
  }

  // ------------------------------------------------------- Records and quads

  datatype Line = Line(maxHeight: nat, maxWidth: nat, row: nat, col: nat)

  datatype Glyph = Glyph(valid: bool, minX: nat, minY: nat, width: nat, height: nat,
                         glyphIndex: int, advanceX: int, left: int, top: int)

  datatype Font = Font(face: Face, glyphs: map<int, Glyph>)

  /** A textured quad: its lower left screen corner and its texture rectangle. */
  datatype Quad = Quad(x: int, y: int, texX: nat, texY: nat, width: nat, height: nat)

  /** What a draw command puts on the screen for one quad. */
  datatype Sprite = Sprite(x: int, y: int, texels: seq<seq<byte>>)

  type FontId = nat

  // --------------------------------------------- Predicates over the texture

  ghost function At(texture: seq<byte>, px: int, py: int): byte
    requires |texture| == CACHE_WIDTH * CACHE_HEIGHT
    requires 0 <= px < CACHE_WIDTH && 0 <= py < CACHE_HEIGHT
  {
    texture[py * CACHE_WIDTH + px]
  }

  predicate InTexture(x: int, y: int, w: int, h: int) {
    0 <= x && 0 <= y && 0 <= w && 0 <= h && x + w <= CACHE_WIDTH && y + h <= CACHE_HEIGHT
  }

  function SampleRow(texture: seq<byte>, x: int, y: int, w: nat): (row: seq<byte>)
    requires |texture| == CACHE_WIDTH * CACHE_HEIGHT
    requires InTexture(x, y, w, 1)
    ensures |row| == w && forall u :: 0 <= u < w ==> row[u] == At(texture, x + u, y)
  {
    texture[y * CACHE_WIDTH + x .. y * CACHE_WIDTH + x + w]
  }

  /** The texels of rectangle (x, y, w, h), row by row. */
  ghost function Sample(texture: seq<byte>, x: int, y: int, w: nat, h: nat): seq<seq<byte>>
    requires |texture| == CACHE_WIDTH * CACHE_HEIGHT
    requires InTexture(x, y, w, h)
  {
    seq(h, v requires 0 <= v < h => SampleRow(texture, x, y + v, w))
  }

  /** The rectangle of the bitmap's size at (x, y) holds exactly the bitmap. */
  ghost predicate Holds(texture: seq<byte>, x: int, y: int, bitmap: Bitmap)
    requires bitmap.WellFormed()
  {
    && |texture| == CACHE_WIDTH * CACHE_HEIGHT
    && InTexture(x, y, bitmap.width, bitmap.rows)
    && forall px, py :: x <= px < x + bitmap.width && y <= py < y + bitmap.rows ==>
         At(texture, px, py) == bitmap.Texel(px - x, py - y)
  }

  lemma HoldsSample(texture: seq<byte>, x: int, y: int, bitmap: Bitmap)
    requires bitmap.WellFormed() && Holds(texture, x, y, bitmap)
    ensures Sample(texture, x, y, bitmap.width, bitmap.rows) == bitmap.Rows()
  {
    forall v | 0 <= v < bitmap.rows
      ensures SampleRow(texture, x, y + v, bitmap.width) == bitmap.Row(v)
    {
      forall u | 0 <= u < bitmap.width
        ensures SampleRow(texture, x, y + v, bitmap.width)[u] == bitmap.Row(v)[u]
      {
        assert At(texture, x + u, y + v) == bitmap.Texel(u, v);
      }
    }
  }

  /** Two textures that agree on a rectangle have the same sample there. */
  ghost predicate SameOn(a: seq<byte>, b: seq<byte>, x: int, y: int, w: int, h: int)
    requires |a| == |b| == CACHE_WIDTH * CACHE_HEIGHT && InTexture(x, y, w, h)
  {
    forall px, py :: x <= px < x + w && y <= py < y + h ==> At(a, px, py) == At(b, px, py)
  }

  lemma SameSample(a: seq<byte>, b: seq<byte>, x: int, y: int, w: nat, h: nat)
    requires |a| == |b| == CACHE_WIDTH * CACHE_HEIGHT && InTexture(x, y, w, h)
    requires SameOn(a, b, x, y, w, h)
    ensures Sample(a, x, y, w, h) == Sample(b, x, y, w, h)
  {
    var s, r := Sample(a, x, y, w, h), Sample(b, x, y, w, h);
    forall v | 0 <= v < h
      ensures s[v] == r[v]
    {
      var row, row' := SampleRow(a, x, y + v, w), SampleRow(b, x, y + v, w);
      forall u | 0 <= u < w
        ensures row[u] == row'[u]
      {
        assert At(a, x + u, y + v) == At(b, x + u, y + v);
      }
    }
  }

  /**
   The copy loop has reached column cx, row cy: texels of the bitmap's rectangle before
   that point are copied, every other texel of the texture is as before.
   */
  ghost predicate CopiedUpTo(before: seq<byte>, now: seq<byte>, x: int, y: int, bitmap: Bitmap, cx: int, cy: int)
    requires |before| == |now| == CACHE_WIDTH * CACHE_HEIGHT
    requires bitmap.WellFormed() && InTexture(x, y, bitmap.width, bitmap.rows)
  {
    forall px, py :: 0 <= px < CACHE_WIDTH && 0 <= py < CACHE_HEIGHT ==>
      At(now, px, py) ==
        if x <= px < x + bitmap.width && y <= py < y + bitmap.rows && (px < cx || (px == cx && py < cy))
        then bitmap.Texel(px - x, py - y) else At(before, px, py)
  }

  /** Writing one texel leaves the others. */
  lemma TexelSet(now: seq<byte>, cx: int, cy: int, v: byte, px: int, py: int)
    requires |now| == CACHE_WIDTH * CACHE_HEIGHT && 0 <= cx < CACHE_WIDTH && 0 <= cy < CACHE_HEIGHT
    requires 0 <= px < CACHE_WIDTH && 0 <= py < CACHE_HEIGHT
    ensures At(now[cy * CACHE_WIDTH + cx := v], px, py) == if px == cx && py == cy then v else At(now, px, py)
  {
  }

  lemma CopiedNext(before: seq<byte>, now: seq<byte>, x: int, y: int, bitmap: Bitmap, cx: int, cy: int)
    requires |before| == |now| == CACHE_WIDTH * CACHE_HEIGHT
    requires bitmap.WellFormed() && InTexture(x, y, bitmap.width, bitmap.rows)
    requires x <= cx < x + bitmap.width && y <= cy < y + bitmap.rows && CopiedUpTo(before, now, x, y, bitmap, cx, cy)
    ensures CopiedUpTo(before, now[cy * CACHE_WIDTH + cx := bitmap.Texel(cx - x, cy - y)], x, y, bitmap, cx, cy + 1)
  {
    var now' := now[cy * CACHE_WIDTH + cx := bitmap.Texel(cx - x, cy - y)];
    forall px, py | 0 <= px < CACHE_WIDTH && 0 <= py < CACHE_HEIGHT
      ensures At(now', px, py) == if px == cx && py == cy then bitmap.Texel(cx - x, cy - y) else At(now, px, py)
    {
      TexelSet(now, cx, cy, bitmap.Texel(cx - x, cy - y), px, py);
    }
  }

  lemma ColumnCopied(before: seq<byte>, now: seq<byte>, x: int, y: int, bitmap: Bitmap, cx: int)
    requires |before| == |now| == CACHE_WIDTH * CACHE_HEIGHT
    requires bitmap.WellFormed() && InTexture(x, y, bitmap.width, bitmap.rows) && x <= cx < x + bitmap.width
    requires CopiedUpTo(before, now, x, y, bitmap, cx, y + bitmap.rows)
    ensures CopiedUpTo(before, now, x, y, bitmap, cx + 1, y)
  {
  }

  ghost predicate Disjoint(x1: int, y1: int, w1: int, h1: int, x2: int, y2: int, w2: int, h2: int) {
    x1 + w1 <= x2 || x2 + w2 <= x1 || y1 + h1 <= y2 || y2 + h2 <= y1
  }

  // ------------------------------------------------------------- Cache lines

  /** The lines are stacked without overlap inside the texture, the last is the tallest. */
  ghost predicate LinesOk(lines: seq<Line>) {
    && |lines| > 0
    && lines[|lines| - 1].maxHeight == TALLEST_LINE
    && (forall i :: 0 <= i < |lines| ==> lines[i].maxWidth == CACHE_WIDTH && lines[i].col < CACHE_WIDTH)
    && (forall i :: 0 <= i < |lines| ==> lines[i].row + lines[i].maxHeight <= CACHE_HEIGHT)
    && (forall i :: 0 <= i < |lines| ==> lines[i].maxHeight <= TALLEST_LINE)
    && (forall i, j :: 0 <= i < j < |lines| ==> lines[i].row + lines[i].maxHeight <= lines[j].row)
  }

  /** The rectangle lies in the used columns of this line. */
  ghost predicate InLine(line: Line, x: int, y: int, w: int, h: int) {
    0 <= x && 0 <= w && 0 <= h && y == line.row && h <= line.maxHeight && x + w <= line.col
  }

  ghost predicate Placed(lines: seq<Line>, x: int, y: int, w: int, h: int) {
    exists i :: 0 <= i < |lines| && InLine(lines[i], x, y, w, h)
  }

  /** `after` is `before` where some lines have used more columns. */
  ghost predicate Grown(before: seq<Line>, after: seq<Line>) {
    && |before| == |after|
    && forall i :: 0 <= i < |before| ==>
         after[i] == before[i].(col := after[i].col) && before[i].col <= after[i].col
  }

  lemma PlacedGrows(before: seq<Line>, after: seq<Line>, x: int, y: int, w: int, h: int)
    requires Grown(before, after) && Placed(before, x, y, w, h)
    ensures Placed(after, x, y, w, h)
  {
    var i :| 0 <= i < |before| && InLine(before[i], x, y, w, h);
    assert InLine(after[i], x, y, w, h);
  }

  lemma PlacedInTexture(lines: seq<Line>, x: int, y: int, w: int, h: int)
    requires LinesOk(lines) && Placed(lines, x, y, w, h)
    ensures InTexture(x, y, w, h)
  {
  }

  /** A bitmap put at the first free column of a line misses everything already placed. */
  lemma NewSlotIsFree(lines: seq<Line>, i: int, w: int, h: int, x2: int, y2: int, w2: int, h2: int)
    requires LinesOk(lines) && 0 <= i < |lines| && 0 <= w && 0 <= h <= lines[i].maxHeight
    requires Placed(lines, x2, y2, w2, h2)
    ensures Disjoint(lines[i].col, lines[i].row, w, h, x2, y2, w2, h2)
  {
    var j :| 0 <= j < |lines| && InLine(lines[j], x2, y2, w2, h2);
  }

  // ------------------------------------------------------------ Batched quads

  ghost predicate QuadsPlaced(lines: seq<Line>, batch: seq<Quad>) {
    forall i :: 0 <= i < |batch| ==>
      Placed(lines, batch[i].texX, batch[i].texY, batch[i].width, batch[i].height)
  }

  /** What drawing this quad against this texture shows. */
  ghost function SpriteOf(texture: seq<byte>, q: Quad): Sprite
    requires |texture| == CACHE_WIDTH * CACHE_HEIGHT
  {
    Sprite(q.x, q.y, if InTexture(q.texX, q.texY, q.width, q.height)
                     then Sample(texture, q.texX, q.texY, q.width, q.height) else [])
  }

  ghost function Sprites(texture: seq<byte>, batch: seq<Quad>): seq<Sprite>
    requires |texture| == CACHE_WIDTH * CACHE_HEIGHT
  {
    seq(|batch|, i requires 0 <= i < |batch| => SpriteOf(texture, batch[i]))
  }

  // ------------------------------------------------------------ Glyph records

  ghost predicate Has(fonts: map<FontId, Font>, f: FontId, c: int) {
    f in fonts && c in fonts[f].glyphs
  }

  ghost function GlyphOf(fonts: map<FontId, Font>, f: FontId, c: int): Glyph
    requires Has(fonts, f, c)
  {
    fonts[f].glyphs[c]
  }

  /** Metrics come from the face; a glyph that cannot be loaded keeps zeros. */
  ghost predicate MetricsOk(face: Face, c: int, g: Glyph) {
    && g.glyphIndex == face.charIndex(c)
    && match face.Load(g.glyphIndex)
       case Some(slot) => g.advanceX == slot.advanceX && g.left == slot.left && g.top == slot.top
       case None => g.advanceX == 0 && g.left == 0 && g.top == 0
  }

  /** A valid record lies in used columns, and the buffer holds its bitmap there. */
  ghost predicate SlotOk(lines: seq<Line>, buffer: seq<byte>, face: Face, g: Glyph)
    requires face.WellFormed()
  {
    g.valid ==>
      match face.Load(g.glyphIndex)
      case None => false
      case Some(slot) =>
        && g.width == slot.bitmap.width && g.height == slot.bitmap.rows
        && Placed(lines, g.minX, g.minY, g.width, g.height)
        && Holds(buffer, g.minX, g.minY, slot.bitmap)
  }

  ghost predicate FontsOk(fonts: map<FontId, Font>) {
    forall f :: f in fonts ==> fonts[f].face.WellFormed()
  }

  ghost predicate RecordsOk(fonts: map<FontId, Font>) {
    forall f, c {:trigger MetricsOk(fonts[f].face, c, GlyphOf(fonts, f, c))} :: Has(fonts, f, c) ==>
      MetricsOk(fonts[f].face, c, GlyphOf(fonts, f, c))
  }

  ghost predicate SlotsOk(lines: seq<Line>, buffer: seq<byte>, fonts: map<FontId, Font>)
    requires FontsOk(fonts)
  {
    forall f, c {:trigger SlotOk(lines, buffer, fonts[f].face, GlyphOf(fonts, f, c))} :: Has(fonts, f, c) ==>
      SlotOk(lines, buffer, fonts[f].face, GlyphOf(fonts, f, c))
  }

  ghost predicate RectsDisjoint(a: Glyph, b: Glyph) {
    a.valid && b.valid ==>
      Disjoint(a.minX, a.minY, a.width, a.height, b.minX, b.minY, b.width, b.height)
  }

  ghost predicate AllDisjoint(fonts: map<FontId, Font>) {
    forall f, c, f2, c2 {:trigger RectsDisjoint(GlyphOf(fonts, f, c), GlyphOf(fonts, f2, c2))} ::
      Has(fonts, f, c) && Has(fonts, f2, c2) && (f, c) != (f2, c2) ==>
      RectsDisjoint(GlyphOf(fonts, f, c), GlyphOf(fonts, f2, c2))
  }

  function Invalidated(fonts: map<FontId, Font>): map<FontId, Font> {
    map f | f in fonts ::
      Font(fonts[f].face, map c | c in fonts[f].glyphs :: fonts[f].glyphs[c].(valid := false))
  }

  ghost predicate NoneValid(fonts: map<FontId, Font>) {
    forall f, c :: Has(fonts, f, c) ==> !GlyphOf(fonts, f, c).valid
  }

  /** Every valid record of `fonts` misses the rectangle. */
  ghost predicate MissesAll(fonts: map<FontId, Font>, x: int, y: int, w: int, h: int) {
    forall f, c :: Has(fonts, f, c) && GlyphOf(fonts, f, c).valid ==>
      var g := GlyphOf(fonts, f, c); Disjoint(x, y, w, h, g.minX, g.minY, g.width, g.height)
  }

  lemma InvalidatedOk(fonts: map<FontId, Font>)
    requires FontsOk(fonts) && RecordsOk(fonts)
    ensures var after := Invalidated(fonts);
      && after.Keys == fonts.Keys && FontsOk(after) && RecordsOk(after)
      && (forall f :: f in fonts ==> after[f].face == fonts[f].face
                                     && after[f].glyphs.Keys == fonts[f].glyphs.Keys)
      && NoneValid(after) && SameRecords(fonts, after)
  {
    var after := Invalidated(fonts);
    forall f, c | Has(after, f, c)
      ensures MetricsOk(after[f].face, c, GlyphOf(after, f, c))
    {
      assert Has(fonts, f, c);
      assert MetricsOk(fonts[f].face, c, GlyphOf(fonts, f, c));
    }
  }

  /** Copying a bitmap to a free place keeps every valid record in order. */
  lemma SlotsKept(before: seq<Line>, after: seq<Line>, buf: seq<byte>, now: seq<byte>, fonts: map<FontId, Font>,
                  x: int, y: int, bitmap: Bitmap)
    requires FontsOk(fonts) && LinesOk(before) && Grown(before, after) && SlotsOk(before, buf, fonts)
    requires |buf| == |now| == CACHE_WIDTH * CACHE_HEIGHT
    requires bitmap.WellFormed() && InTexture(x, y, bitmap.width, bitmap.rows)
    requires CopiedUpTo(buf, now, x, y, bitmap, x + bitmap.width, y)
    requires MissesAll(fonts, x, y, bitmap.width, bitmap.rows)
    ensures SlotsOk(after, now, fonts)
  {
    forall f, c | Has(fonts, f, c) && GlyphOf(fonts, f, c).valid
      ensures SlotOk(after, now, fonts[f].face, GlyphOf(fonts, f, c))
    {
      var g := GlyphOf(fonts, f, c);
      assert SlotOk(before, buf, fonts[f].face, g);
      PlacedGrows(before, after, g.minX, g.minY, g.width, g.height);
    }
  }

  /** A bitmap put in a free slot misses every valid record. */
  lemma NewSlotMisses(lines: seq<Line>, buf: seq<byte>, fonts: map<FontId, Font>, i: int, w: int, h: int)
    requires FontsOk(fonts) && LinesOk(lines) && SlotsOk(lines, buf, fonts)
    requires 0 <= i < |lines| && 0 <= w && 0 <= h <= lines[i].maxHeight
    ensures MissesAll(fonts, lines[i].col, lines[i].row, w, h)
  {
    forall f, c | Has(fonts, f, c) && GlyphOf(fonts, f, c).valid
      ensures var g := GlyphOf(fonts, f, c);
        Disjoint(lines[i].col, lines[i].row, w, h, g.minX, g.minY, g.width, g.height)
    {
      var g := GlyphOf(fonts, f, c);
      assert SlotOk(lines, buf, fonts[f].face, g);
      NewSlotIsFree(lines, i, w, h, g.minX, g.minY, g.width, g.height);
    }
  }

  /** Copying a bitmap to a free place does not change what the batched quads show. */
  lemma BatchKept(before: seq<Line>, after: seq<Line>, buf: seq<byte>, now: seq<byte>, batch: seq<Quad>,
                  i: int, bitmap: Bitmap)
    requires LinesOk(before) && Grown(before, after) && QuadsPlaced(before, batch)
    requires |buf| == |now| == CACHE_WIDTH * CACHE_HEIGHT
    requires 0 <= i < |before| && bitmap.WellFormed() && bitmap.rows <= before[i].maxHeight
    requires var x, y := before[i].col, before[i].row;
      InTexture(x, y, bitmap.width, bitmap.rows) && CopiedUpTo(buf, now, x, y, bitmap, x + bitmap.width, y)
    ensures QuadsPlaced(after, batch) && Sprites(now, batch) == Sprites(buf, batch)
  {
    forall k | 0 <= k < |batch|
      ensures Placed(after, batch[k].texX, batch[k].texY, batch[k].width, batch[k].height)
      ensures Sprites(now, batch)[k] == Sprites(buf, batch)[k]
    {
      var q := batch[k];
      PlacedGrows(before, after, q.texX, q.texY, q.width, q.height);
      PlacedInTexture(before, q.texX, q.texY, q.width, q.height);
      NewSlotIsFree(before, i, bitmap.width, bitmap.rows, q.texX, q.texY, q.width, q.height);
      SameSample(now, buf, q.texX, q.texY, q.width, q.height);
    }
  }

  // ------------------------------------------- Rendering without any cache

  /** The glyph can be cached at all: it loads, and an empty cache has room for it. */
  predicate Cacheable(face: Face, c: int) {
    match face.Load(face.charIndex(c))
    case None => false
    case Some(slot) => slot.bitmap.rows <= TALLEST_LINE && slot.bitmap.width < CACHE_WIDTH
  }

  predicate Culled(x: int, y: int, w: int, h: int, surfaceW: int, surfaceH: int) {
    x > surfaceW || y < 0 || x + w < 0 || y - h > surfaceH
  }

  function Advance(face: Face, c: int): int {
    match face.Load(face.charIndex(c))
    case None => 0
    case Some(slot) => slot.advanceX / 64
  }

  /** What one character shows with the pen at (penX, penY), straight from the face. */
  ghost function DirectGlyph(face: Face, c: int, penX: int, penY: int, sw: int, sh: int): seq<Sprite>
    requires face.WellFormed()
  {
    if !Cacheable(face, c) then []
    else
      var slot := face.Load(face.charIndex(c)).value;
      assert slot.bitmap.WellFormed();
      var x, y := penX + slot.left, penY - slot.top + slot.bitmap.rows;
      if Culled(x, y, slot.bitmap.width, slot.bitmap.rows, sw, sh) then []
      else [Sprite(x, y, slot.bitmap.Rows())]
  }

  /** The reference renderer: every glyph straight from the face, in text order. */
  ghost function DirectText(face: Face, text: seq<int>, penX: int, penY: int, sw: int, sh: int): seq<Sprite>
    requires face.WellFormed()
  {
    if |text| == 0 then []
    else DirectGlyph(face, text[0], penX, penY, sw, sh)
         + DirectText(face, text[1..], penX + Advance(face, text[0]), penY, sw, sh)
  }

  lemma DirectStep(face: Face, text: seq<int>, i: nat, done: seq<Sprite>, penX: int, penY: int, sw: int, sh: int)
    requires face.WellFormed() && i < |text|
    ensures done + DirectText(face, text[i..], penX, penY, sw, sh) ==
            done + DirectGlyph(face, text[i], penX, penY, sw, sh)
            + DirectText(face, text[i + 1..], penX + Advance(face, text[i]), penY, sw, sh)
  {
    assert text[i..][1..] == text[i + 1..];
  }

  /** With `out` shown and the pen at penX, the text from character i on completes `all`. */
  ghost predicate StillToShow(out: seq<Sprite>, face: Face, text: seq<int>, i: nat, penX: int, penY: int,
                              sw: int, sh: int, all: seq<Sprite>)
    requires face.WellFormed() && i <= |text|
  {
    forall k :: KeyAt(i, k) ==> out + DirectText(face, text[i..], penX, penY, sw, sh) == all
  }

  lemma ShownStart(out: seq<Sprite>, face: Face, text: seq<int>, penX: int, penY: int, sw: int, sh: int)
    requires face.WellFormed()
    ensures StillToShow(out, face, text, 0, penX, penY, sw, sh, out + DirectText(face, text, penX, penY, sw, sh))
  {
    assert text[0..] == text;
  }

  lemma ShownNext(out: seq<Sprite>, face: Face, text: seq<int>, i: nat, penX: int, penY: int, sw: int, sh: int,
                  all: seq<Sprite>)
    requires face.WellFormed() && i < |text| && StillToShow(out, face, text, i, penX, penY, sw, sh, all)
    ensures StillToShow(out + DirectGlyph(face, text[i], penX, penY, sw, sh), face, text, i + 1,
                        penX + Advance(face, text[i]), penY, sw, sh, all)
  {
    assert KeyAt(i, 0);
    DirectStep(face, text, i, out, penX, penY, sw, sh);
  }

  lemma AllShown(out: seq<Sprite>, face: Face, text: seq<int>, penX: int, penY: int, sw: int, sh: int,
                 all: seq<Sprite>)
    requires face.WellFormed() && StillToShow(out, face, text, |text|, penX, penY, sw, sh, all)
    ensures out == all
  {
    assert KeyAt(|text|, 0);
    assert out + [] == out;
  }

  /** numGlyphs limits the text only when it is positive, and 0 draws nothing. */
  function Limited(text: seq<int>, numGlyphs: int): seq<int> {
    if numGlyphs == 0 then []
    else if 0 < numGlyphs < |text| then text[..numGlyphs]
    else text
  }

  lemma LimitedMeans(text: seq<int>, numGlyphs: int)
    ensures Limited(text, numGlyphs) <= text
    ensures numGlyphs < 0 ==> Limited(text, numGlyphs) == text
    ensures numGlyphs >= 0 ==> |Limited(text, numGlyphs)| == if numGlyphs < |text| then numGlyphs else |text|
  {
  }

  // ------------------------------------------- What rendering without a cache means

  /** The point lies in the rectangle of a quad with lower left corner (x, y), and on the surface. */
  ghost predicate OnSurface(px: int, py: int, x: int, y: int, w: int, h: int, surfaceW: int, surfaceH: int) {
    x <= px <= x + w && y - h <= py <= y && 0 <= px <= surfaceW && 0 <= py <= surfaceH
  }

  /** A quad is culled exactly when no point of it is on the surface. */
  lemma CulledIffOutside(x: int, y: int, w: nat, h: nat, surfaceW: nat, surfaceH: nat)
    ensures Culled(x, y, w, h, surfaceW, surfaceH)
            <==> !exists px, py :: OnSurface(px, py, x, y, w, h, surfaceW, surfaceH)
  {
    var px, py := if x < 0 then 0 else x, if y - h < 0 then 0 else y - h;
    assert !Culled(x, y, w, h, surfaceW, surfaceH) ==> OnSurface(px, py, x, y, w, h, surfaceW, surfaceH);
  }

  /** The pen moves by whole pixels; advances come in units of 1/64 pixel. */
  lemma AdvanceMeans(face: Face, c: int)
    ensures match face.Load(face.charIndex(c))
      case Some(slot) => 64 * Advance(face, c) <= slot.advanceX < 64 * Advance(face, c) + 64
      case None => Advance(face, c) == 0
  {
  }

  /** A glyph is left out of texts exactly if it does not load, has over 88 rows or is as wide as the texture. */
  lemma NotCacheable(face: Face, c: int)
    ensures !Cacheable(face, c) <==>
      match face.Load(face.charIndex(c))
      case Some(slot) => slot.bitmap.rows > 88 || slot.bitmap.width >= 1024
      case None => true
  {
  }

  /** The texel that a sprite shows at a point of the screen; its rows go down to its lower left corner. */
  ghost predicate Shows(s: Sprite, px: int, py: int, value: byte) {
    var v, u := py - (s.y - |s.texels|), px - s.x;
    0 <= v < |s.texels| && 0 <= u < |s.texels[v]| && s.texels[v][u] == value
  }

  /** Where the pen is before character i. */
  ghost function PenAt(face: Face, text: seq<int>, i: nat, penX: int): int
    requires i <= |text|
  {
    if i == 0 then penX else PenAt(face, text, i - 1, penX) + Advance(face, text[i - 1])
  }

  lemma {:induction false} PenMoves(face: Face, text: seq<int>, i: nat, penX: int)
    requires 0 < i <= |text|
    ensures PenAt(face, text, i, penX) == PenAt(face, text[1..], i - 1, penX + Advance(face, text[0]))
  {
    if i > 1 {
      PenMoves(face, text, i - 1, penX);
      assert text[1..][i - 2] == text[i - 1];
    } else {
      assert PenAt(face, text, 0, penX) == penX;
    }
  }

  /**
   Pixel (u, v) of the bitmap of a glyph that the cache can hold is shown `left` pixels to the
   right of the pen and `top` pixels above it, if that is on the surface.
   */
  lemma GlyphShowsPixel(face: Face, c: int, penX: int, penY: int, sw: nat, sh: nat, u: nat, v: nat)
    requires face.WellFormed() && Cacheable(face, c)
    requires var b := face.Load(face.charIndex(c)).value.bitmap; b.WellFormed() && u < b.width && v < b.rows
    requires var slot := face.Load(face.charIndex(c)).value;
      0 <= penX + slot.left + u <= sw && 0 <= penY - slot.top + v <= sh
    ensures var slot := face.Load(face.charIndex(c)).value;
      && 0 <= v * slot.bitmap.width + u < |slot.bitmap.buffer|
      && |DirectGlyph(face, c, penX, penY, sw, sh)| == 1
      && Shows(DirectGlyph(face, c, penX, penY, sw, sh)[0], penX + slot.left + u, penY - slot.top + v,
               slot.bitmap.buffer[v * slot.bitmap.width + u])
  {
    var slot := face.Load(face.charIndex(c)).value;
    var b := slot.bitmap;
    b.BufferIndex(u, v);
    var x, y := penX + slot.left, penY - slot.top + b.rows;
    assert OnSurface(x + u, penY - slot.top + v, x, y, b.width, b.rows, sw, sh);
    CulledIffOutside(x, y, b.width, b.rows, sw, sh);
    assert b.Rows()[v] == b.Row(v);
  }

  /** Every character of the text is shown where its pen is. */
  lemma {:induction false} TextShowsGlyph(face: Face, text: seq<int>, penX: int, penY: int, sw: int, sh: int,
                                          i: nat, s: Sprite)
    requires face.WellFormed() && i < |text|
    requires s in DirectGlyph(face, text[i], PenAt(face, text, i, penX), penY, sw, sh)
    ensures s in DirectText(face, text, penX, penY, sw, sh)
    decreases |text|
  {
    if i > 0 {
      PenMoves(face, text, i, penX);
      TextShowsGlyph(face, text[1..], penX + Advance(face, text[0]), penY, sw, sh, i - 1, s);
    }
  }

  /** Nothing else is shown. */
  lemma {:induction false} ShownIsFromText(face: Face, text: seq<int>, penX: int, penY: int, sw: int, sh: int,
                                           s: Sprite)
    returns (i: nat)
    requires face.WellFormed() && s in DirectText(face, text, penX, penY, sw, sh)
    ensures i < |text| && s in DirectGlyph(face, text[i], PenAt(face, text, i, penX), penY, sw, sh)
    decreases |text|
  {
    if s in DirectGlyph(face, text[0], penX, penY, sw, sh) {
      i := 0;
      assert PenAt(face, text, 0, penX) == penX;
    } else {
      i := ShownIsFromText(face, text[1..], penX + Advance(face, text[0]), penY, sw, sh, s);
      i := i + 1;
      PenMoves(face, text, i, penX);
    }
  }

  /** Every pixel on the surface of every character that the cache can hold is shown. */
  lemma TextShowsPixel(face: Face, text: seq<int>, penX: int, penY: int, sw: nat, sh: nat, i: nat, u: nat, v: nat)
    requires face.WellFormed() && i < |text| && Cacheable(face, text[i])
    requires var b := face.Load(face.charIndex(text[i])).value.bitmap; b.WellFormed() && u < b.width && v < b.rows
    requires var slot := face.Load(face.charIndex(text[i])).value;
      0 <= PenAt(face, text, i, penX) + slot.left + u <= sw && 0 <= penY - slot.top + v <= sh
    ensures var slot := face.Load(face.charIndex(text[i])).value;
      && 0 <= v * slot.bitmap.width + u < |slot.bitmap.buffer|
      && exists s :: s in DirectText(face, text, penX, penY, sw, sh)
                  && Shows(s, PenAt(face, text, i, penX) + slot.left + u, penY - slot.top + v,
                           slot.bitmap.buffer[v * slot.bitmap.width + u])
  {
    var pen := PenAt(face, text, i, penX);
    GlyphShowsPixel(face, text[i], pen, penY, sw, sh, u, v);
    TextShowsGlyph(face, text, penX, penY, sw, sh, i, DirectGlyph(face, text[i], pen, penY, sw, sh)[0]);
  }

  /** No line has room for the bitmap. */
  ghost predicate Refused(lines: seq<Line>, bitmap: Bitmap) {
    forall i :: 0 <= i < |lines| ==>
      bitmap.rows > lines[i].maxHeight || lines[i].col + bitmap.width >= lines[i].maxWidth
  }

  // ---------------------------------------------------------------- FontState

  class FontState {
    var lines: seq<Line>
    const cacheBuffer: array<byte>
    var texture: seq<byte>
    var fonts: map<FontId, Font>
    const quads: array<Quad>
    var quadIndex: nat
    var drawn: seq<Sprite>
    ghost var flushes: nat

    ghost function Batch(): seq<Quad>
      reads this, quads
      requires quadIndex <= quads.Length
    {
      quads[..quadIndex]
    }

    /** The invariant of the cache. */
    ghost predicate Valid()
      reads this, cacheBuffer, quads
    {
      && cacheBuffer.Length == CACHE_WIDTH * CACHE_HEIGHT && |texture| == CACHE_WIDTH * CACHE_HEIGHT
      && quads.Length == MAX_QUADS && quadIndex < MAX_QUADS
      && LinesOk(lines) && QuadsPlaced(lines, Batch())
      && FontsOk(fonts) && RecordsOk(fonts)
      && SlotsOk(lines, cacheBuffer[..], fonts)
      && AllDisjoint(fonts)
      && (texture == cacheBuffer[..] || (quadIndex == 0 && NoneValid(fonts)))
    }

    /** Everything shown so far plus everything batched, in order. */
    ghost function Output(): seq<Sprite>
      reads this, quads
      requires |texture| == CACHE_WIDTH * CACHE_HEIGHT && quadIndex <= quads.Length
    {
      drawn + Sprites(texture, Batch())
    }

    /** initTextTexture: split the texture into seven lines of fixed heights. */
    constructor ()
      ensures Valid() && fresh(cacheBuffer) && fresh(quads)
      ensures cacheBuffer.Length == 1024 * 256 && quads.Length == 1024
      ensures |lines| == 7 && forall i :: 0 <= i < 7 ==> lines[i].col == 0
      ensures quadIndex == 0 && drawn == [] && fonts == map[]
    {
      cacheBuffer := new byte[CACHE_WIDTH * CACHE_HEIGHT];
      texture := seq(CACHE_WIDTH * CACHE_HEIGHT, _ => 0);
      quads := new Quad[MAX_QUADS](_ => Quad(0, 0, 0, 0, 0, 0));
      quadIndex, drawn, fonts := 0, [], map[];
      lines := [Line(16, CACHE_WIDTH, 0, 0), Line(24, CACHE_WIDTH, 16, 0), Line(24, CACHE_WIDTH, 40, 0),
                Line(32, CACHE_WIDTH, 64, 0), Line(32, CACHE_WIDTH, 96, 0), Line(40, CACHE_WIDTH, 128, 0),
                Line(CACHE_HEIGHT - 168, CACHE_WIDTH, 168, 0)];
    }

    /** CacheTextureLine::fitBitmap on line i. */
    method FitBitmap(i: nat, bitmap: Bitmap) returns (fit: bool, x: nat, y: nat)
      requires i < |lines|
      modifies this`lines
      ensures fit <==> bitmap.rows <= old(lines[i]).maxHeight
                       && old(lines[i]).col + bitmap.width < old(lines[i]).maxWidth
      ensures fit ==> x == old(lines[i]).col && y == old(lines[i]).row
      ensures lines == if fit then old(lines)[i := old(lines[i]).(col := x + bitmap.width)] else old(lines)
    {
      x, y := 0, 0;
      if bitmap.rows > lines[i].maxHeight {
        return false, x, y;
      }
      if lines[i].col + bitmap.width < lines[i].maxWidth {
        x, y := lines[i].col, lines[i].row;
        lines := lines[i := lines[i].(col := x + bitmap.width)];
        return true, x, y;
      }
      return false, x, y;
    }

    /** The two search loops of cacheBitmap: the first line that accepts the bitmap. */
    method FitAnyLine(bitmap: Bitmap) returns (fit: bool, x: nat, y: nat)
      requires LinesOk(lines)
      modifies this`lines
      ensures !fit ==> lines == old(lines)
      ensures fit <==> !Refused(old(lines), bitmap)
      ensures fit ==> LinesOk(lines) && Grown(old(lines), lines)
      ensures fit ==> Placed(lines, x, y, bitmap.width, bitmap.rows)
      ensures fit ==> exists i :: 0 <= i < |old(lines)| && x == old(lines)[i].col && y == old(lines)[i].row
                                  && bitmap.rows <= old(lines)[i].maxHeight
    {
      fit, x, y := false, 0, 0;
      var i := 0;
      while i < |lines|
        invariant 0 <= i <= |lines| && lines == old(lines) && !fit
        invariant Refused(lines[..i], bitmap)
      {
        fit, x, y := FitBitmap(i, bitmap);
        if fit {
          assert InLine(lines[i], x, y, bitmap.width, bitmap.rows);
          break;
        }
        i := i + 1;
      }
    }

    /** issueDrawCommand: rasterise the batch against the uploaded texture. */
    method IssueDrawCommand()
      requires |texture| == CACHE_WIDTH * CACHE_HEIGHT && quadIndex <= quads.Length
      requires LinesOk(lines) && QuadsPlaced(lines, Batch())
      modifies this`drawn
      ensures drawn == old(drawn) + Sprites(texture, Batch())
    {
      var i := 0;
      while i < quadIndex
        invariant 0 <= i <= quadIndex
        invariant drawn == old(drawn) + Sprites(texture, Batch())[..i]
      {
        assert Batch()[i] == quads[i];
        PlacedInTexture(lines, quads[i].texX, quads[i].texY, quads[i].width, quads[i].height);
        var s := ReadSprite(quads[i]);
        assert s == Sprites(texture, Batch())[i];
        drawn := drawn + [s];
        i := i + 1;
      }
    }

    /** The sampler: reads the quad's texture rectangle row by row. */
    method ReadSprite(q: Quad) returns (s: Sprite)
      requires |texture| == CACHE_WIDTH * CACHE_HEIGHT && InTexture(q.texX, q.texY, q.width, q.height)
      ensures s == Sprite(q.x, q.y, Sample(texture, q.texX, q.texY, q.width, q.height))
    {
      var rows := [];
      var j := 0;
      while j < q.height
        invariant 0 <= j <= q.height && |rows| == j
        invariant forall v :: 0 <= v < j ==> rows[v] == SampleRow(texture, q.texX, q.texY + v, q.width)
      {
        rows := rows + [SampleRow(texture, q.texX, q.texY + j, q.width)];
        j := j + 1;
      }
      s := Sprite(q.x, q.y, rows);
      assert rows == Sample(texture, q.texX, q.texY, q.width, q.height);
    }

    /** flushAllAndInvalidate: draw the batch, drop every record, empty every line. */
    method FlushAllAndInvalidate()
      requires Valid()
      modifies this`drawn, this`quadIndex, this`fonts, this`lines, this`flushes
      ensures Valid() && quadIndex == 0 && flushes == old(flushes) + 1
      ensures Output() == old(Output())
      ensures fonts == Invalidated(old(fonts))
      ensures |lines| == |old(lines)|
      ensures forall i :: 0 <= i < |lines| ==> lines[i] == old(lines)[i].(col := 0)
    {
      flushes := flushes + 1;
      if quadIndex != 0 {
        IssueDrawCommand();
        quadIndex := 0;
      }
      fonts := Invalidated(fonts);
      InvalidatedOk(old(fonts));
      EmptyLines();
    }

    /** The loop over lines. */
    method EmptyLines()
      modifies this`lines
      ensures |lines| == |old(lines)| && forall i :: 0 <= i < |lines| ==> lines[i] == old(lines)[i].(col := 0)
    {
      var i := 0;
      while i < |lines|
        invariant 0 <= i <= |lines| == |old(lines)|
        invariant forall k :: 0 <= k < i ==> lines[k] == old(lines)[k].(col := 0)
        invariant forall k :: i <= k < |lines| ==> lines[k] == old(lines)[k]
      {
        lines := lines[i := lines[i].(col := 0)];
        i := i + 1;
      }
    }

    /** The nested copy loops of cacheBitmap. */
    method CopyBitmap(bitmap: Bitmap, x: nat, y: nat)
      requires cacheBuffer.Length == CACHE_WIDTH * CACHE_HEIGHT
      requires bitmap.WellFormed() && InTexture(x, y, bitmap.width, bitmap.rows)
      modifies cacheBuffer
      ensures CopiedUpTo(old(cacheBuffer[..]), cacheBuffer[..], x, y, bitmap, x + bitmap.width, y)
      ensures Holds(cacheBuffer[..], x, y, bitmap)
    {
      ghost var before := cacheBuffer[..];
      var cx := x;
      while cx < x + bitmap.width
        invariant x <= cx <= x + bitmap.width
        invariant CopiedUpTo(before, cacheBuffer[..], x, y, bitmap, cx, y)
      {
        var cy := y;
        while cy < y + bitmap.rows
          invariant y <= cy <= y + bitmap.rows
          invariant CopiedUpTo(before, cacheBuffer[..], x, y, bitmap, cx, cy)
        {
          CopiedNext(before, cacheBuffer[..], x, y, bitmap, cx, cy);
          cacheBuffer[cy * CACHE_WIDTH + cx] := bitmap.Texel(cx - x, cy - y);
          cy := cy + 1;
        }
        ColumnCopied(before, cacheBuffer[..], x, y, bitmap, cx);
        cx := cx + 1;
      }
    }

    /** One attempt of cacheBitmap: reserve a place, copy the bitmap there, upload the texture. */
    method TryCache(bitmap: Bitmap) returns (ok: bool, x: nat, y: nat)
      requires Valid() && bitmap.WellFormed()
      modifies this`lines, this`texture, cacheBuffer
      ensures Valid() && Output() == old(Output())
      ensures (ok <==> !Refused(old(lines), bitmap)) && (!ok ==> lines == old(lines))
      ensures ok ==> bitmap.rows <= TALLEST_LINE && bitmap.width < CACHE_WIDTH
      ensures ok ==> texture == cacheBuffer[..] && Placed(lines, x, y, bitmap.width, bitmap.rows)
      ensures ok ==> Holds(cacheBuffer[..], x, y, bitmap) && MissesAll(fonts, x, y, bitmap.width, bitmap.rows)
    {
      ghost var before, buf := lines, cacheBuffer[..];
      ok, x, y := FitAnyLine(bitmap);
      if ok {
        PlacedInTexture(lines, x, y, bitmap.width, bitmap.rows);
        ghost var i :| 0 <= i < |before| && x == before[i].col && y == before[i].row
                       && bitmap.rows <= before[i].maxHeight;
        NewSlotMisses(before, buf, fonts, i, bitmap.width, bitmap.rows);
        CopyBitmap(bitmap, x, y);
        SlotsKept(before, lines, buf, cacheBuffer[..], fonts, x, y, bitmap);
        BatchKept(before, lines, buf, cacheBuffer[..], Batch(), i, bitmap);
        texture := cacheBuffer[..];
      }
    }

    /** cacheBitmap: find room, flushing once if need be. */
    method CacheBitmap(bitmap: Bitmap) returns (ok: bool, x: nat, y: nat)
      requires Valid() && bitmap.WellFormed()
      modifies this`drawn, this`quadIndex, this`fonts, this`lines, this`flushes, this`texture, cacheBuffer
      ensures Valid()
      ensures ok <==> bitmap.rows <= TALLEST_LINE && bitmap.width < CACHE_WIDTH
      ensures flushes == old(flushes) + if bitmap.rows <= TALLEST_LINE && Refused(old(lines), bitmap) then 1 else 0
      ensures Output() == old(Output())
      ensures SameRecords(old(fonts), fonts)
      ensures old(quadIndex) == 0 ==> quadIndex == 0
      ensures ok ==> texture == cacheBuffer[..] && Placed(lines, x, y, bitmap.width, bitmap.rows)
      ensures ok ==> Holds(cacheBuffer[..], x, y, bitmap) && MissesAll(fonts, x, y, bitmap.width, bitmap.rows)
    {
      ok, x, y := false, 0, 0;
      if bitmap.rows > lines[|lines| - 1].maxHeight {
        return;
      }
      ok, x, y := TryCache(bitmap);
      if !ok {
        FlushAllAndInvalidate();
        InvalidatedOk(old(fonts));
        ok, x, y := TryCache(bitmap);
        if !ok {
          assert lines[|lines| - 1].col + bitmap.width >= lines[|lines| - 1].maxWidth;
        }
      }
    }

    /** Replaces the record of character c by one that is in order itself. */
    method StoreRecord(f: FontId, c: int, g: Glyph)
      requires Valid() && f in fonts && MetricsOk(fonts[f].face, c, g)
      requires SlotOk(lines, cacheBuffer[..], fonts[f].face, g)
      requires g.valid ==> MissesAll(fonts, g.minX, g.minY, g.width, g.height) && texture == cacheBuffer[..]
      modifies this`fonts
      ensures Valid() && SameFaces(old(fonts), fonts) && KeepsRecords(old(fonts), fonts)
      ensures Has(fonts, f, c) && GlyphOf(fonts, f, c) == g
    {
      RecordSet(lines, cacheBuffer[..], fonts, f, c, g);
      fonts := fonts[f := fonts[f].(glyphs := fonts[f].glyphs[c := g])];
    }

    /** Font::updateGlyphCache on the record of character c. */
    method UpdateGlyphCache(f: FontId, c: int)
      requires Valid() && Has(fonts, f, c) && !GlyphOf(fonts, f, c).valid
      modifies this`drawn, this`quadIndex, this`fonts, this`lines, this`flushes, this`texture, cacheBuffer
      ensures Valid() && SameFaces(old(fonts), fonts) && KeepsRecords(old(fonts), fonts)
      ensures Output() == old(Output())
      ensures old(quadIndex) == 0 ==> quadIndex == 0
      ensures Has(fonts, f, c) && (GlyphOf(fonts, f, c).valid <==> Cacheable(fonts[f].face, c))
    {
      var face := fonts[f].face;
      assert MetricsOk(face, c, GlyphOf(fonts, f, c));
      var loaded := face.Load(fonts[f].glyphs[c].glyphIndex);
      if loaded.None? {
        return;
      }
      var slot := loaded.value;
      var ok, x, y := CacheBitmap(slot.bitmap);
      assert Has(old(fonts), f, c);
      var g := fonts[f].glyphs[c].(advanceX := slot.advanceX, left := slot.left, top := slot.top, valid := ok);
      if ok {
        g := g.(minX := x, minY := y, width := slot.bitmap.width, height := slot.bitmap.rows);
      }
      StoreRecord(f, c, g);
    }

    /** Font::cacheGlyph: a new record for c, then the first attempt to cache it. */
    method CacheGlyph(f: FontId, c: int)
      requires Valid() && f in fonts && c !in fonts[f].glyphs
      modifies this`drawn, this`quadIndex, this`fonts, this`lines, this`flushes, this`texture, cacheBuffer
      ensures Valid() && SameFaces(old(fonts), fonts) && KeepsRecords(old(fonts), fonts)
      ensures Output() == old(Output())
      ensures old(quadIndex) == 0 ==> quadIndex == 0
      ensures Has(fonts, f, c) && (GlyphOf(fonts, f, c).valid <==> Cacheable(fonts[f].face, c))
    {
      var face := fonts[f].face;
      var g := Glyph(false, 0, 0, 0, 0, face.charIndex(c), 0, 0, 0);
      // The metrics of the record are settled by the load that updateGlyphCache begins with.
      var loaded := face.Load(g.glyphIndex);
      if loaded.Some? {
        g := g.(advanceX := loaded.value.advanceX, left := loaded.value.left, top := loaded.value.top);
      }
      StoreRecord(f, c, g);
      UpdateGlyphCache(f, c);
    }

    /**
     Font::getCachedUTFChar: afterwards the record is valid exactly for the cacheable
     characters, whatever was cached before, and nothing already drawn or batched changed.
     */
    method GetCachedUTFChar(f: FontId, c: int) returns (g: Glyph)
      requires Valid() && f in fonts
      modifies this`drawn, this`quadIndex, this`fonts, this`lines, this`flushes, this`texture, cacheBuffer
      ensures Valid() && SameFaces(old(fonts), fonts) && KeepsRecords(old(fonts), fonts)
      ensures Output() == old(Output())
      ensures old(quadIndex) == 0 ==> quadIndex == 0
      ensures Has(fonts, f, c) && GlyphOf(fonts, f, c) == g
      ensures g.valid <==> Cacheable(fonts[f].face, c)
      ensures old(Has(fonts, f, c) && GlyphOf(fonts, f, c).valid) ==>
        fonts == old(fonts) && lines == old(lines) && flushes == old(flushes) && quadIndex == old(quadIndex)
    {
      if c !in fonts[f].glyphs {
        CacheGlyph(f, c);
      }
      if !fonts[f].glyphs[c].valid {
        UpdateGlyphCache(f, c);
      }
      g := fonts[f].glyphs[c];
      assert SlotOk(lines, cacheBuffer[..], fonts[f].face, GlyphOf(fonts, f, c));
      assert MetricsOk(fonts[f].face, c, GlyphOf(fonts, f, c));
    }

    /** appendMeshQuad: batch a quad unless it is off the surface; draw a full batch. */
    method AppendMeshQuad(q: Quad, surfaceW: int, surfaceH: int)
      requires Valid() && Placed(lines, q.texX, q.texY, q.width, q.height) && texture == cacheBuffer[..]
      modifies this`drawn, this`quadIndex, quads
      ensures Valid()
      ensures
        Output() == old(Output())
                    + if Culled(q.x, q.y, q.width, q.height, surfaceW, surfaceH) then [] else [SpriteOf(texture, q)]
    {
      if q.x > surfaceW || q.y < 0 || q.x + q.width < 0 || q.y - q.height > surfaceH {
        return;
      }
      quads[quadIndex] := q;
      assert quads[..quadIndex + 1] == old(Batch()) + [q];
      ghost var all := drawn + Sprites(texture, quads[..quadIndex + 1]);
      assert all == old(Output()) + [SpriteOf(texture, q)];
      quadIndex := quadIndex + 1;
      if quadIndex == MAX_QUADS {
        IssueDrawCommand();
        quadIndex := 0;
      }
    }

    /** The loop body of renderUTF: show one character and tell how far the pen moves. */
    method RenderChar(f: FontId, c: int, penX: int, penY: int, surfaceW: int, surfaceH: int) returns (advance: int)
      requires Valid() && f in fonts
      modifies this`drawn, this`quadIndex, this`fonts, this`lines, this`flushes, this`texture, cacheBuffer, quads
      ensures Valid() && SameFaces(old(fonts), fonts)
      ensures
        Output() == old(Output()) + DirectGlyph(old(fonts[f].face), c, penX, penY, surfaceW, surfaceH)
      ensures advance == Advance(old(fonts[f].face), c)
    {
      var g := GetCachedUTFChar(f, c);
      assert MetricsOk(fonts[f].face, c, GlyphOf(fonts, f, c));
      if g.valid {
        DrawCachedGlyph(f, c, g, penX, penY, surfaceW, surfaceH);
      }
      advance := g.advanceX / 64;
    }

    /** One round of the loop of renderUTF: character i of what is to be shown. */
    method RenderNext(f: FontId, c: int, penX: int, penY: int, surfaceW: int, surfaceH: int,
                      ghost shown: seq<int>, ghost i: nat, ghost all: seq<Sprite>) returns (penX': int)
      requires Valid() && f in fonts && i < |shown| && c == shown[i]
      requires StillToShow(Output(), fonts[f].face, shown, i, penX, penY, surfaceW, surfaceH, all)
      modifies this`drawn, this`quadIndex, this`fonts, this`lines, this`flushes, this`texture, cacheBuffer, quads
      ensures Valid() && SameFaces(old(fonts), fonts)
      ensures StillToShow(Output(), fonts[f].face, shown, i + 1, penX', penY, surfaceW, surfaceH, all)
    {
      ShownNext(Output(), fonts[f].face, shown, i, penX, penY, surfaceW, surfaceH, all);
      var advance := RenderChar(f, c, penX, penY, surfaceW, surfaceH);
      penX' := penX + advance;
    }

    /** Font::renderUTF in FRAMEBUFFER mode: what is shown is what the face says, cache or no cache. */
    method RenderUTF(f: FontId, text: seq<int>, numGlyphs: int, x: int, y: int, surfaceW: int, surfaceH: int)
      requires Valid() && f in fonts
      modifies this`drawn, this`quadIndex, this`fonts, this`lines, this`flushes, this`texture, cacheBuffer, quads
      ensures Valid() && SameFaces(old(fonts), fonts)
      ensures
        Output() == old(Output())
                    + DirectText(old(fonts[f].face), Limited(text, numGlyphs), x, y, surfaceW, surfaceH)
    {
      if numGlyphs == 0 || |text| == 0 {
        return;
      }
      ghost var shown := Limited(text, numGlyphs);
      ghost var all := Output() + DirectText(fonts[f].face, shown, x, y, surfaceW, surfaceH);
      ShownStart(Output(), fonts[f].face, shown, x, y, surfaceW, surfaceH);
      var penX := x;
      var glyphsLeft := if numGlyphs > 0 then numGlyphs else 1;
      var index := 0;
      while glyphsLeft > 0 && index < |text|
        invariant 0 <= index <= |shown| && (glyphsLeft <= 0 ==> index == |shown|)
        invariant glyphsLeft == if numGlyphs > 0 then numGlyphs - index else 1
        invariant Valid() && SameFaces(old(fonts), fonts)
        invariant StillToShow(Output(), fonts[f].face, shown, index, penX, y, surfaceW, surfaceH, all)
        decreases |text| - index
      {
        penX := RenderNext(f, text[index], penX, y, surfaceW, surfaceH, shown, index, all);
        index := index + 1;
        if numGlyphs > 0 {
          glyphsLeft := glyphsLeft - 1;
        }
      }
      AllShown(Output(), fonts[f].face, shown, penX, y, surfaceW, surfaceH, all);
    }

    /** Font::drawCachedGlyph: the quad for a valid record shows the glyph's own bitmap. */
    method DrawCachedGlyph(f: FontId, ghost c: int, g: Glyph, x: int, y: int, surfaceW: int, surfaceH: int)
      requires Valid() && Has(fonts, f, c) && GlyphOf(fonts, f, c) == g && g.valid && Cacheable(fonts[f].face, c)
      modifies this`drawn, this`quadIndex, quads
      ensures Valid()
      ensures Output() == old(Output()) + DirectGlyph(fonts[f].face, c, x, y, surfaceW, surfaceH)
    {
      ghost var face := fonts[f].face;
      assert MetricsOk(face, c, g) && SlotOk(lines, cacheBuffer[..], face, g);
      ghost var slot := face.Load(face.charIndex(c)).value;
      HoldsSample(cacheBuffer[..], g.minX, g.minY, slot.bitmap);
      AppendMeshQuad(Quad(x + g.left, y - g.top + g.height, g.minX, g.minY, g.width, g.height),
                     surfaceW, surfaceH);
    }

    /** FontState::renderText: the batch is empty before and after, everything is on the screen. */
    method RenderText(f: FontId, text: seq<int>, numGlyphs: int, x: int, y: int, surfaceW: int, surfaceH: int)
      requires Valid() && f in fonts && quadIndex == 0
      modifies this`drawn, this`quadIndex, this`fonts, this`lines, this`flushes, this`texture, cacheBuffer, quads
      ensures Valid() && quadIndex == 0 && SameFaces(old(fonts), fonts)
      ensures
        drawn == old(drawn)
                 + DirectText(old(fonts[f].face), Limited(text, numGlyphs), x, y, surfaceW, surfaceH)
    {
      assert Output() == drawn;
      RenderUTF(f, text, numGlyphs, x, y, surfaceW, surfaceH);
      if quadIndex != 0 {
        IssueDrawCommand();
        quadIndex := 0;
      }
    }

    /** getRemainingCacheCapacity, in percent. */
    method GetRemainingCacheCapacity() returns (percent: nat)
      requires LinesOk(lines)
      ensures percent == FreeColumns(lines, |lines|) * 100 / (1024 * |lines|)
    {
      var remaining, total := 0, 0;
      var i := 0;
      while i < |lines|
        invariant 0 <= i <= |lines| && 0 <= remaining == FreeColumns(lines, i) && total == 1024 * i
      {
        remaining := remaining + (lines[i].maxWidth - lines[i].col);
        total := total + lines[i].maxWidth;
        i := i + 1;
      }
      percent := remaining * 100 / total;
    }

    /**
     Font::create with precacheLatin: caching ahead of time draws nothing, and goes on until all
     n characters have records or at most a quarter of the columns is free.
     */
    method CreateFont(f: FontId, face: Face, latinPrecache: seq<int>) returns (n: nat)
      requires Valid() && f !in fonts && face.WellFormed() && quadIndex == 0
      modifies this`drawn, this`quadIndex, this`fonts, this`lines, this`flushes, this`texture, cacheBuffer
      ensures Valid() && quadIndex == 0 && drawn == old(drawn)
      ensures fonts.Keys == old(fonts).Keys + {f} && fonts[f].face == face
      ensures n <= |latinPrecache| && Recorded(fonts, f, latinPrecache, n)
      ensures n < |latinPrecache| ==> FreeColumns(lines, |lines|) * 100 / (1024 * |lines|) <= 25
    {
      fonts := fonts[f := Font(face, map[])];
      assert Added(old(fonts), fonts, f);
      var remaining := GetRemainingCacheCapacity();
      n := 0;
      while remaining > 25 && n < |latinPrecache|
        invariant 0 <= n <= |latinPrecache| && Recorded(fonts, f, latinPrecache, n)
        invariant Valid() && quadIndex == 0 && drawn == old(drawn)
        invariant fonts.Keys == old(fonts).Keys + {f} && fonts[f].face == face
        invariant remaining == FreeColumns(lines, |lines|) * 100 / (1024 * |lines|)
        decreases |latinPrecache| - n
      {
        assert Output() == drawn;
        var _ := GetCachedUTFChar(f, latinPrecache[n]);
        assert Output() == drawn;
        remaining := GetRemainingCacheCapacity();
        n := n + 1;
      }
    }

    /** Font::preDestroy: the font leaves the active list, its records go with it. */
    method DestroyFont(f: FontId)
      requires Valid() && f in fonts
      modifies this`fonts
      ensures Valid() && fonts == old(fonts) - {f}
    {
      fonts := fonts - {f};
      assert Added(fonts, old(fonts), f);
    }
  }

  /** `after` has the records of `before` and maybe some of font f. */
  ghost predicate Added(before: map<FontId, Font>, after: map<FontId, Font>, f: FontId) {
    forall f2, c :: Has(after, f2, c) && f2 != f ==>
      Has(before, f2, c) && GlyphOf(before, f2, c) == GlyphOf(after, f2, c) && before[f2].face == after[f2].face
  }

  /** Same active fonts with the same faces, and no record forgotten. */
  ghost predicate SameFaces(before: map<FontId, Font>, after: map<FontId, Font>) {
    && before.Keys == after.Keys
    && forall f :: f in before ==> after[f].face == before[f].face
  }

  /** No record is lost. */
  ghost predicate KeepsRecords(before: map<FontId, Font>, after: map<FontId, Font>) {
    forall f, c :: Has(before, f, c) ==> Has(after, f, c)
  }

  /** The first n characters have records. */
  ghost predicate Recorded(fonts: map<FontId, Font>, f: FontId, text: seq<int>, n: nat)
    requires n <= |text|
  {
    forall i :: 0 <= i < n ==> Has(fonts, f, text[i])
  }

  /** Columns still free in the first n lines. */
  ghost function FreeColumns(lines: seq<Line>, n: nat): int
    requires n <= |lines|
  {
    if n == 0 then 0 else FreeColumns(lines, n - 1) + (lines[n - 1].maxWidth - lines[n - 1].col)
  }

  /** Exactly the same records, some of them possibly invalidated. */
  ghost predicate SameRecords(before: map<FontId, Font>, after: map<FontId, Font>) {
    && SameFaces(before, after)
    && forall f, c :: Has(before, f, c) ==>
         Has(after, f, c) && GlyphOf(after, f, c).(valid := false) == GlyphOf(before, f, c).(valid := false)
  }

  /** Storing a record that is in order itself keeps all records in order. */
  lemma RecordSet(lines: seq<Line>, buf: seq<byte>, fonts: map<FontId, Font>, f: FontId, c: int, g: Glyph)
    requires FontsOk(fonts) && RecordsOk(fonts) && SlotsOk(lines, buf, fonts) && AllDisjoint(fonts)
    requires f in fonts && MetricsOk(fonts[f].face, c, g) && SlotOk(lines, buf, fonts[f].face, g)
    requires g.valid ==> MissesAll(fonts, g.minX, g.minY, g.width, g.height)
    ensures var after := fonts[f := fonts[f].(glyphs := fonts[f].glyphs[c := g])];
      && FontsOk(after) && RecordsOk(after) && SlotsOk(lines, buf, after) && AllDisjoint(after)
      && (NoneValid(fonts) && !g.valid ==> NoneValid(after))
  {
    var after := fonts[f := fonts[f].(glyphs := fonts[f].glyphs[c := g])];
    assert forall f2, c2 :: Has(after, f2, c2) ==>
      if (f2, c2) == (f, c) then GlyphOf(after, f2, c2) == g
      else Has(fonts, f2, c2) && GlyphOf(after, f2, c2) == GlyphOf(fonts, f2, c2)
           && after[f2].face == fonts[f2].face;
  }
}
