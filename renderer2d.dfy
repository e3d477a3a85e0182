/**
 * `Renderer2D`: quads written four vertices at a time into a fixed buffer of 8192
 * vertices, drawn in one call when the buffer would overflow, when the texture-unit ring is
 * full, or at the end of the scene; characters drawn as glyph quads from a font atlas; and
 * the expansion of a one-channel glyph bitmap to RGBA.
 *
 * The buffer, the counter, the shared ring and a ghost trace of GPU work are the state;
 * `Batch` is its value-level picture and `Submit` the value-level meaning of a quad submit.
 */
module Renderer2D {
  import opened RendererCommon
  import opened TextureUnits

  /** `batchSize`: vertices in the buffer. */
  const BatchSize: nat := 8192
  /** The printable range loaded into the glyph atlas, `firstGlyph` to `lastGlyph`. */
  const FirstGlyph: int := 32
  const LastGlyph: int := 126
  /** The pixel size the font is rasterised at (`charSize`). */
  const FontPixelSize: real := 25.0

  datatype Vec2 = Vec2(x: real, y: real)
  datatype Vec3 = Vec3(x: real, y: real, z: real)

  /** `Quad`: a translation and a scale applied to the unit quad centred on the origin. */
  datatype Quad = Quad(translate: Vec3, scale: Vec3)

  /** A region of a texture, by the texture's id and two UV corners. */
  datatype SubTexture = SubTexture(texture: nat, uvStart: Vec2, uvEnd: Vec2)

  /** `GlyphData`. */
  datatype Glyph = Glyph(size: Vec2, bearing: Vec2, advance: real, sub: SubTexture)

  /** A vertex position: never written, or corner `k` of a quad under that quad's model matrix. */
  datatype Position = Origin | Corner(quad: Quad, k: nat)

  /** `Renderer2DVertex`; a default-constructed vertex has position and UV zero. */
  datatype Vertex = Vertex(pos: Position, uv: Vec2, texUnit: nat, tint: bv32)

  const BlankVertex := Vertex(Origin, Vec2(0.0, 0.0), 0, 0)

  /** The identity quad `init` places, and the whole-texture UV range. */
  const UnitQuad := Quad(Vec3(0.0, 0.0, 0.0), Vec3(1.0, 1.0, 1.0))
  const WholeUv := SubTexture(0, Vec2(0.0, 0.0), Vec2(1.0, 1.0))

  /** Vertex `i` of the buffer `init` sets up: the unit quad's corners in 0..3, white, unit 0; blank after. */
  function InitVertex(i: int): Vertex
  {
    if 0 <= i < 4 then Vertex(Corner(UnitQuad, i), CornerUv(WholeUv, i), 0, Pack(White)) else BlankVertex
  }

  datatype GpuEvent =
    | LoadTexture(texture: nat, unit: nat)
    | DrawQuads(vertices: seq<Vertex>, count: nat)

  /**
   * `createCentreHalfExtents`: translate to the centre, scale to twice the half extents, so the
   * quad spans exactly centre ± half extents in the plane z = 0.
   */
  function CentreHalfExtents(centre: Vec2, half: Vec2): (q: Quad)
    ensures CornerAt(q, 0) == Vec2(centre.x - half.x, centre.y - half.y)
    ensures CornerAt(q, 1) == Vec2(centre.x - half.x, centre.y + half.y)
    ensures CornerAt(q, 2) == Vec2(centre.x + half.x, centre.y + half.y)
    ensures CornerAt(q, 3) == Vec2(centre.x + half.x, centre.y - half.y)
    ensures q.translate.z == 0.0 && q.scale.z == 1.0
  {
    assert UnitCorner(0) == Vec2(-0.5, -0.5) && UnitCorner(1) == Vec2(-0.5, 0.5);
    assert UnitCorner(2) == Vec2(0.5, 0.5) && UnitCorner(3) == Vec2(0.5, -0.5);
    Quad(Vec3(centre.x, centre.y, 0.0), Vec3(2.0 * half.x, 2.0 * half.y, 1.0))
  }

  /** Corner `k` of the unit quad set up by `init`: (-½,-½), (-½,½), (½,½), (½,-½). */
  function UnitCorner(k: nat): Vec2
    requires k < 4
  {
    [Vec2(-0.5, -0.5), Vec2(-0.5, 0.5), Vec2(0.5, 0.5), Vec2(0.5, -0.5)][k]
  }

  /** Where corner `k` lands in the plane: scale, then translate. */
  function CornerAt(q: Quad, k: nat): Vec2
    requires k < 4
  {
    Vec2(q.translate.x + q.scale.x * UnitCorner(k).x, q.translate.y + q.scale.y * UnitCorner(k).y)
  }

  /** The UV of corner `k`: (start.x, start.y), (start.x, end.y), (end.x, end.y), (end.x, start.y). */
  function CornerUv(sub: SubTexture, k: nat): Vec2
    requires k < 4
  {
    if k == 0 then sub.uvStart
    else if k == 1 then Vec2(sub.uvStart.x, sub.uvEnd.y)
    else if k == 2 then sub.uvEnd
    else Vec2(sub.uvEnd.x, sub.uvStart.y)
  }

  // ---- The batch ----

  /** The buffer, the counter, the ring and the trace. */
  datatype Batch = Batch(vertices: seq<Vertex>, drawCount: nat, ring: Ring, trace: seq<GpuEvent>)

  ghost predicate BatchInv(b: Batch)
  {
    |b.vertices| == BatchSize && b.drawCount <= BatchSize && ValidRing(b.ring)
  }

  /** `flush`: draw `drawCount` vertices of the whole uploaded buffer and reset the counter. */
  function FlushSpec(b: Batch): (r: Batch)
    ensures r.drawCount == 0 && r.vertices == b.vertices && r.ring == b.ring
    ensures r.trace == b.trace + [DrawQuads(b.vertices, b.drawCount)]
  {
    b.(trace := b.trace + [DrawQuads(b.vertices, b.drawCount)], drawCount := 0)
  }

  /** The four vertices of a quad, written at `start`. */
  function WriteQuad(vs: seq<Vertex>, start: nat, q: Quad, sub: SubTexture, unit: nat, tint: bv32): (r: seq<Vertex>)
    requires start + 4 <= |vs|
    ensures |r| == |vs|
    ensures forall i :: 0 <= i < |vs| && !(start <= i < start + 4) ==> r[i] == vs[i]
    ensures forall k :: 0 <= k < 4 ==> r[start + k] == Vertex(Corner(q, k), CornerUv(sub, k), unit, tint)
  {
    vs[start := Vertex(Corner(q, 0), CornerUv(sub, 0), unit, tint)]
      [start + 1 := Vertex(Corner(q, 1), CornerUv(sub, 1), unit, tint)]
      [start + 2 := Vertex(Corner(q, 2), CornerUv(sub, 2), unit, tint)]
      [start + 3 := Vertex(Corner(q, 3), CornerUv(sub, 3), unit, tint)]
  }

  /**
   * The flushes at the start of a quad submit: one when four more vertices would not fit,
   * and one followed by `clear` when the ring is full.
   */
  function MakeRoom(b: Batch): (r: Batch)
    requires BatchInv(b)
    ensures BatchInv(r) && !r.ring.full && r.drawCount + 4 <= BatchSize && r.vertices == b.vertices
  {
    var b1 := if b.drawCount + 4 > BatchSize then FlushSpec(b) else b;
    if b1.ring.full then FlushSpec(b1).(ring := Cleared(|b1.ring.buffer|)) else b1
  }

  /**
   * `submit(quad, texture, tint)`: make room, look the texture up and load it into the unit
   * returned, look it up again, and write the four vertices with the second unit and the
   * packed tint.
   */
  function Submit(b: Batch, q: Quad, sub: SubTexture, tint: Colour): (r: Batch)
    requires BatchInv(b)
    ensures BatchInv(r) && r.drawCount >= 4
  {
    var m := MakeRoom(b);
    var first := Resolve(m.ring, sub.texture);
    var second := Resolve(first.ring, sub.texture);
    Batch(WriteQuad(m.vertices, m.drawCount, q, sub, second.unit, Pack(tint)), m.drawCount + 4, second.ring,
          m.trace + [LoadTexture(sub.texture, first.unit)])
  }

  /**
   * A quad submit flushes first exactly when four more vertices would not fit or the ring
   * is full; it then ends with the counter four past where it wrote, so the counter never
   * exceeds the buffer.
   */
  lemma {:induction false} SubmitCounts(b: Batch, q: Quad, sub: SubTexture, tint: Colour)
    requires BatchInv(b)
    ensures var r := Submit(b, q, sub, tint);
      var flushed := b.drawCount + 4 > BatchSize || b.ring.full;
      (flushed ==> r.drawCount == 4 && |r.trace| > |b.trace| + 1 && r.trace[|b.trace|] == DrawQuads(b.vertices, b.drawCount))
      && (!flushed ==> r.drawCount == b.drawCount + 4 && r.trace == b.trace + [LoadTexture(sub.texture, Resolve(b.ring, sub.texture).unit)])
      && r.drawCount <= BatchSize
  {
  }

  /**
   * The four vertices of a submitted quad carry the quad's four corners and UVs and share
   * the packed tint and the texture unit.
   */
  lemma {:induction false} SubmitWritesOneQuad(b: Batch, q: Quad, sub: SubTexture, tint: Colour)
    requires BatchInv(b)
    ensures var r := Submit(b, q, sub, tint); var start := r.drawCount - 4;
      forall k :: 0 <= k < 4 ==>
        r.vertices[start + k].pos == Corner(q, k) && r.vertices[start + k].uv == CornerUv(sub, k)
        && r.vertices[start + k].tint == Pack(tint) && r.vertices[start + k].texUnit == r.vertices[start].texUnit
  {
    var m := MakeRoom(b);
    var second := Resolve(Resolve(m.ring, sub.texture).ring, sub.texture);
    assert Submit(b, q, sub, tint).vertices == WriteQuad(b.vertices, m.drawCount, q, sub, second.unit, Pack(tint));
  }

  /** A quad submit leaves every vertex outside its four untouched. */
  lemma {:induction false} SubmitKeepsOtherVertices(b: Batch, q: Quad, sub: SubTexture, tint: Colour)
    requires BatchInv(b)
    ensures var r := Submit(b, q, sub, tint); var start := r.drawCount - 4;
      forall i :: 0 <= i < BatchSize && !(start <= i < start + 4) ==> r.vertices[i] == b.vertices[i]
  {
    var m := MakeRoom(b);
    var second := Resolve(Resolve(m.ring, sub.texture).ring, sub.texture);
    assert Submit(b, q, sub, tint).vertices == WriteQuad(b.vertices, m.drawCount, q, sub, second.unit, Pack(tint));
  }

  /**
   * The unit written to the vertices is the unit the texture was loaded into, unless that
   * first lookup filled the ring: then the second lookup clears it and writes unit 0.
   */
  lemma {:induction false} SubmitUnit(b: Batch, q: Quad, sub: SubTexture, tint: Colour)
    requires BatchInv(b)
    ensures var r := Submit(b, q, sub, tint); var m := MakeRoom(b);
      var first := Resolve(m.ring, sub.texture);
      r.trace[|r.trace| - 1] == LoadTexture(sub.texture, first.unit)
      && (!first.ring.full ==> r.vertices[r.drawCount - 4].texUnit == first.unit)
      && (first.ring.full ==> r.vertices[r.drawCount - 4].texUnit == 0)
  {
    var m := MakeRoom(b);
    ResolveTwice(m.ring, sub.texture);
  }

  // ---- Characters and strings ----

  predicate Drawable(code: int)
  {
    FirstGlyph <= code <= LastGlyph
  }

  /** `charScale`: the requested character size over the size the font was rasterised at. */
  function CharScale(charSize: nat): real
  {
    charSize as real / FontPixelSize
  }

  /** The quad of a glyph drawn with its pen at `pos`, scaled by `scale`. */
  function GlyphQuad(g: Glyph, pos: Vec2, scale: real): Quad
  {
    var half := Vec2(g.size.x * scale * 0.5, g.size.y * scale * 0.5);
    CentreHalfExtents(Vec2(pos.x + g.bearing.x * scale + half.x, pos.y + g.bearing.y * scale + half.y), half)
  }

  /**
   * The drawing half of `submit(ch, position, advance, tint, charSize)`: a printable
   * character is drawn as its glyph's quad; any other character changes nothing.
   */
  function SubmitChar(b: Batch, glyphs: seq<Glyph>, code: int, pos: Vec2, tint: Colour, scale: real): (r: Batch)
    requires BatchInv(b) && |glyphs| == LastGlyph - FirstGlyph + 1
    ensures BatchInv(r)
    ensures !Drawable(code) ==> r == b
  {
    if Drawable(code) then
      var g := glyphs[code - FirstGlyph];
      Submit(b, GlyphQuad(g, pos, scale), g.sub, tint)
    else b
  }

  /**
   * The advance written back by `submit(ch, position, advance, tint, charSize)`: the glyph's
   * scaled advance for a printable character, the caller's value otherwise.
   */
  function CharAdvance(glyphs: seq<Glyph>, code: int, advance: real, scale: real): (r: real)
    requires |glyphs| == LastGlyph - FirstGlyph + 1
    ensures !Drawable(code) ==> r == advance
    ensures Drawable(code) ==> r == glyphs[code - FirstGlyph].advance * scale
  {
    if Drawable(code) then glyphs[code - FirstGlyph].advance * scale else advance
  }

  /** The pen after some characters of a string: the batch, the pen's x and the last advance. */
  datatype Pen = Pen(batch: Batch, x: real, advance: real)

  /**
   * The loop of `submit(str, position, tint, charSize)`: each character is submitted at the
   * pen, then the pen moves by the advance, which only printable characters change.
   */
  function SubmitString(b: Batch, glyphs: seq<Glyph>, codes: seq<int>, pos: Vec2, tint: Colour, scale: real): (r: Pen)
    requires BatchInv(b) && |glyphs| == LastGlyph - FirstGlyph + 1
    ensures BatchInv(r.batch)
    decreases |codes|
  {
    if codes == [] then Pen(b, pos.x, 0.0)
    else
      var p := SubmitString(b, glyphs, codes[..|codes| - 1], pos, tint, scale);
      var code := codes[|codes| - 1];
      var adv := CharAdvance(glyphs, code, p.advance, scale);
      Pen(SubmitChar(p.batch, glyphs, code, Vec2(p.x, pos.y), tint, scale), p.x + adv, adv)
  }

  /** The advance in force after `codes`: that of the last printable character, or 0 when there is none. */
  function LastAdvance(glyphs: seq<Glyph>, codes: seq<int>, scale: real): real
    requires |glyphs| == LastGlyph - FirstGlyph + 1
    decreases |codes|
  {
    if codes == [] then 0.0
    else if Drawable(codes[|codes| - 1]) then glyphs[codes[|codes| - 1] - FirstGlyph].advance * scale
    else LastAdvance(glyphs, codes[..|codes| - 1], scale)
  }

  /** The pen's x after `codes`: the sum of the advance in force after each character. */
  function PenX(glyphs: seq<Glyph>, codes: seq<int>, x0: real, scale: real): real
    requires |glyphs| == LastGlyph - FirstGlyph + 1
    decreases |codes|
  {
    if codes == [] then x0
    else PenX(glyphs, codes[..|codes| - 1], x0, scale) + LastAdvance(glyphs, codes, scale)
  }

  /**
   * After each character the pen has moved by the advance in force: a non-printable
   * character repeats the advance of the last printable one before it, or 0 when there is
   * none, although it draws nothing.
   */
  lemma {:induction false} StringPenAdvance(b: Batch, glyphs: seq<Glyph>, codes: seq<int>, pos: Vec2, tint: Colour, scale: real)
    requires BatchInv(b) && |glyphs| == LastGlyph - FirstGlyph + 1
    ensures var p := SubmitString(b, glyphs, codes, pos, tint, scale);
      p.advance == LastAdvance(glyphs, codes, scale) && p.x == PenX(glyphs, codes, pos.x, scale)
    decreases |codes|
  {
    if codes != [] {
      StringPenAdvance(b, glyphs, codes[..|codes| - 1], pos, tint, scale);
    }
  }

  /** A string without printable characters draws nothing and leaves the pen where it was. */
  lemma {:induction false} UnprintableStringDrawsNothing(b: Batch, glyphs: seq<Glyph>, codes: seq<int>, pos: Vec2, tint: Colour, scale: real)
    requires BatchInv(b) && |glyphs| == LastGlyph - FirstGlyph + 1
    requires forall i :: 0 <= i < |codes| ==> !Drawable(codes[i])
    ensures var p := SubmitString(b, glyphs, codes, pos, tint, scale);
      p.batch == b && p.x == pos.x && p.advance == 0.0
    decreases |codes|
  {
    if codes != [] {
      UnprintableStringDrawsNothing(b, glyphs, codes[..|codes| - 1], pos, tint, scale);
    }
  }

  // ---- R2RGBA ----

  type Byte = b: nat | b < 256

  /** The RGBA expansion of a one-channel bitmap: each byte s becomes (255, 255, 255, s). */
  function Expand(src: seq<Byte>): (dst: seq<Byte>)
    ensures |dst| == 4 * |src|
    decreases |src|
  {
    if src == [] then [] else Expand(src[..|src| - 1]) + [255, 255, 255, src[|src| - 1]]
  }

  /** Every fourth byte of an expansion, from byte 3: the alpha channel. */
  function Alphas(dst: seq<Byte>): (a: seq<Byte>)
    requires |dst| % 4 == 0
    ensures |a| == |dst| / 4
    decreases |dst|
  {
    if dst == [] then [] else Alphas(dst[..|dst| - 4]) + [dst[|dst| - 1]]
  }

  /** Pixel p of the expansion is opaque white with the source byte as alpha. */
  lemma {:induction false} ExpandPixel(src: seq<Byte>, p: nat)
    requires p < |src|
    ensures Expand(src)[4 * p .. 4 * p + 4] == [255, 255, 255, src[p]]
    decreases |src|
  {
    var n := |src| - 1;
    assert Expand(src) == Expand(src[..n]) + [255, 255, 255, src[n]];
    if p < n {
      ExpandPixel(src[..n], p);
      assert Expand(src)[4 * p .. 4 * p + 4] == Expand(src[..n])[4 * p .. 4 * p + 4];
    }
  }

  /** The alpha channel of the expansion gives the bitmap back. */
  lemma {:induction false} ExpandAlphaRoundTrip(src: seq<Byte>)
    ensures Alphas(Expand(src)) == src
    decreases |src|
  {
    if src != [] {
      var n := |src| - 1;
      var e := Expand(src);
      assert e[..|e| - 4] == Expand(src[..n]);
      ExpandAlphaRoundTrip(src[..n]);
      assert src == src[..n] + [src[n]];
    }
  }

  /** The rows before row i + 1 of a width × height bitmap lie inside it. */
  lemma {:induction false} PixelRowsInside(i: nat, width: nat, height: nat)
    requires i < height
    ensures (i + 1) * width == i * width + width <= width * height
  {
    assert (i + 1) * width <= height * width;
  }

  /** Pixel p of `dst` is opaque white with byte p of `src` as alpha, for p in [lo, hi). */
  ghost predicate PixelsFrom(dst: seq<Byte>, src: seq<Byte>, lo: nat, hi: nat)
    requires hi <= |src| && 4 * hi <= |dst|
  {
    forall p :: lo <= p < hi ==>
      dst[4 * p] == 255 && dst[4 * p + 1] == 255 && dst[4 * p + 2] == 255 && dst[4 * p + 3] == src[p]
  }

  /** A buffer whose every pixel is the expansion of its source byte is the expansion. */
  lemma {:induction false} PixelsMakeExpansion(dst: seq<Byte>, src: seq<Byte>)
    requires |dst| == 4 * |src| && PixelsFrom(dst, src, 0, |src|)
    ensures dst == Expand(src)
    decreases |src|
  {
    if src != [] {
      var n := |src| - 1;
      assert PixelsFrom(dst[..4 * n], src[..n], 0, n) by {
        forall p | 0 <= p < n
          ensures dst[..4 * n][4 * p + 3] == src[..n][p]
        {
          assert src[..n][p] == src[p];
        }
      }
      PixelsMakeExpansion(dst[..4 * n], src[..n]);
      assert src[n] == src[n];
      assert dst == dst[..4 * n] + [255, 255, 255, src[n]];
    }
  }

  /** The four bytes of pixel p written as opaque white with alpha `a`. */
  function WritePixel(d: seq<Byte>, p: nat, a: Byte): (r: seq<Byte>)
    requires 4 * p + 4 <= |d|
    ensures |r| == |d|
  {
    d[4 * p := 255][4 * p + 1 := 255][4 * p + 2 := 255][4 * p + 3 := a]
  }

  /** Writing pixel s extends the expanded pixels [lo, s) to [lo, s + 1). */
  lemma {:induction false} PixelsExtend(d: seq<Byte>, src: seq<Byte>, lo: nat, s: nat)
    requires s < |src| && 4 * s + 4 <= |d| && PixelsFrom(d, src, lo, s)
    ensures PixelsFrom(WritePixel(d, s, src[s]), src, lo, s + 1)
  {
    var w := WritePixel(d, s, src[s]);
    forall p | lo <= p < s + 1
      ensures w[4 * p] == 255 && w[4 * p + 1] == 255 && w[4 * p + 2] == 255 && w[4 * p + 3] == src[p]
    {
      if p < s {
        assert d[4 * p + 3] == src[p];
      }
    }
  }

  /**
   * The inner loop of `R2RGBA`: the `width` bytes of one row, from `rowStart`, expanded;
   * no other byte is touched.
   */
  method ExpandRow(dst: array<Byte>, src: array<Byte>, rowStart: nat, width: nat)
    requires rowStart + width <= src.Length && 4 * (rowStart + width) <= dst.Length
    modifies dst
    ensures PixelsFrom(dst[..], src[..], rowStart, rowStart + width)
    ensures forall k :: 0 <= k < dst.Length && !(4 * rowStart <= k < 4 * (rowStart + width)) ==> dst[k] == old(dst[k])
  {
    var walker := 4 * rowStart;
    var s := rowStart;
    for j := 0 to width
      invariant s == rowStart + j && walker == 4 * s
      invariant PixelsFrom(dst[..], src[..], rowStart, s)
      invariant forall k :: 0 <= k < dst.Length && !(4 * rowStart <= k < walker) ==> dst[k] == old(dst[k])
    {
      ghost var before := dst[..];
      dst[walker] := 255;
      dst[walker + 1] := 255;
      dst[walker + 2] := 255;
      dst[walker + 3] := src[s];
      assert dst[..] == WritePixel(before, s, src[s]);
      PixelsExtend(before, src[..], rowStart, s);
      walker := walker + 4;
      s := s + 1;
    }
  }

  /**
   * `R2RGBA(dst, src, width, height)`: row by row, column by column, each source byte becomes
   * four destination bytes; bytes past `4·width·height` are not touched.
   */
  method R2RGBA(dst: array<Byte>, src: array<Byte>, width: nat, height: nat)
    requires src.Length >= width * height && dst.Length >= 4 * (width * height)
    modifies dst
    ensures dst[..4 * (width * height)] == Expand(src[..width * height])
    ensures forall k :: 4 * (width * height) <= k < dst.Length ==> dst[k] == old(dst[k])
  {
    ghost var total := width * height;
    var s := 0;
    for i := 0 to height
      invariant s == i * width && s <= total
      invariant PixelsFrom(dst[..], src[..], 0, s)
      invariant forall k :: 4 * s <= k < dst.Length ==> dst[k] == old(dst[k])
    {
      PixelRowsInside(i, width, height);
      ExpandRow(dst, src, s, width);
      s := s + width;
    }
    assert s == total by {
      assert height * width == width * height;
    }
    assert PixelsFrom(dst[..4 * total], src[..total], 0, total);
    PixelsMakeExpansion(dst[..4 * total], src[..total]);
  }

  // ---- The renderer ----

  class Renderer {
    const units: TextureUnitManager
    const vertices: array<Vertex>
    /** `glyphData`, indexed by character code minus `FirstGlyph`. */
    const glyphs: seq<Glyph>
    /** `RendererCommon::defaultSubTexture`: the whole of the plain white texture. */
    const defaultSub: SubTexture
    var drawCount: nat
    ghost var trace: seq<GpuEvent>

    ghost function State(): Batch
      reads this, vertices, units, units.buffer
    {
      Batch(vertices[..], drawCount, units.State(), trace)
    }

    ghost predicate Valid()
      reads this, vertices, units, units.buffer
    {
      BatchInv(State()) && units.Valid() && |glyphs| == LastGlyph - FirstGlyph + 1
    }

    /** The buffer of `init`: `batchSize` default vertices; the glyph table is given. */
    constructor (units: TextureUnitManager, glyphs: seq<Glyph>, defaultSub: SubTexture)
      requires units.Valid() && |glyphs| == LastGlyph - FirstGlyph + 1
      ensures Valid() && fresh(vertices) && this.units == units && this.glyphs == glyphs && this.defaultSub == defaultSub
      ensures State() == Batch(seq(BatchSize, InitVertex), 0, old(units.State()), [])
      ensures forall k :: 0 <= k < 4 ==> vertices[k].pos == Corner(UnitQuad, k) && vertices[k].uv == CornerUv(WholeUv, k) && vertices[k].tint == 0xFFFF_FFFF
    {
      this.units := units;
      this.glyphs := glyphs;
      this.defaultSub := defaultSub;
      vertices := new Vertex[BatchSize](InitVertex);
      drawCount := 0;
      trace := [];
      new;
      assert vertices[..] == seq(BatchSize, InitVertex);
      PackExtremes();
    }

    /** `begin`: the counter starts at zero. */
    method Begin()
      requires Valid()
      modifies this`drawCount
      ensures Valid() && drawCount == 0
    {
      drawCount := 0;
    }

    /** `flush`, proved to follow `FlushSpec`. */
    method Flush()
      requires Valid()
      modifies this`drawCount, this`trace
      ensures Valid() && State() == FlushSpec(old(State()))
    {
      trace := trace + [DrawQuads(vertices[..], drawCount)];
      drawCount := 0;
    }

    /** `end`: flush only when something was written. */
    method End()
      requires Valid()
      modifies this`drawCount, this`trace
      ensures Valid()
      ensures old(drawCount) > 0 ==> State() == FlushSpec(old(State()))
      ensures old(drawCount) == 0 ==> State() == old(State())
    {
      if drawCount > 0 {
        Flush();
      }
    }

    /** The flushes at the head of `submit(quad, texture, tint)`, proved to follow `MakeRoom`. */
    method Room()
      requires Valid()
      modifies this`drawCount, this`trace, units, units.buffer
      ensures Valid() && State() == MakeRoom(old(State()))
    {
      if drawCount + 4 > BatchSize {
        Flush();
      }
      if units.IsFull() {
        Flush();
        units.Clear();
      }
    }

    /** The four vertex writes of `submit(quad, texture, tint)`. */
    method PutQuad(start: nat, q: Quad, sub: SubTexture, unit: nat, tint: bv32)
      requires start + 4 <= vertices.Length
      modifies vertices
      ensures vertices[..] == WriteQuad(old(vertices[..]), start, q, sub, unit, tint)
    {
      for k := 0 to 4
        invariant forall i :: 0 <= i < vertices.Length && !(start <= i < start + k) ==> vertices[i] == old(vertices[i])
        invariant forall i :: 0 <= i < k ==> vertices[start + i] == Vertex(Corner(q, i), CornerUv(sub, i), unit, tint)
      {
        vertices[start + k] := Vertex(Corner(q, k), CornerUv(sub, k), unit, tint);
      }
    }

    /** `submit(quad, texture, tint)`, proved to follow `Submit`. */
    method SubmitQuad(q: Quad, sub: SubTexture, tint: Colour)
      requires Valid()
      modifies this`drawCount, this`trace, vertices, units, units.buffer
      ensures Valid() && State() == Submit(old(State()), q, sub, tint)
    {
      ghost var m := MakeRoom(State());
      Room();
      var hit, loaded := units.GetUnit(sub.texture);
      trace := trace + [LoadTexture(sub.texture, loaded)];
      var again, unit := units.GetUnit(sub.texture);
      PutQuad(drawCount, q, sub, unit, Pack(tint));
      drawCount := drawCount + 4;
    }

    /** `submit(quad, tint)`: the default sub-texture. */
    method SubmitTinted(q: Quad, tint: Colour)
      requires Valid()
      modifies this`drawCount, this`trace, vertices, units, units.buffer
      ensures Valid() && State() == Submit(old(State()), q, defaultSub, tint)
    {
      SubmitQuad(q, defaultSub, tint);
    }

    /** `submit(quad, texture)`: the default tint, opaque white. */
    method SubmitTextured(q: Quad, sub: SubTexture)
      requires Valid()
      modifies this`drawCount, this`trace, vertices, units, units.buffer
      ensures Valid() && State() == Submit(old(State()), q, sub, White)
    {
      SubmitQuad(q, sub, White);
    }

    /** `submit(ch, position, advance, tint, charSize)`, proved to follow `SubmitChar`. */
    method SubmitCharacter(code: int, pos: Vec2, advance: real, tint: Colour, charSize: nat) returns (advance': real)
      requires Valid()
      modifies this`drawCount, this`trace, vertices, units, units.buffer
      ensures Valid()
      ensures State() == SubmitChar(old(State()), glyphs, code, pos, tint, CharScale(charSize))
      ensures advance' == CharAdvance(glyphs, code, advance, CharScale(charSize))
    {
      var scale := CharScale(charSize);
      advance' := advance;
      if FirstGlyph <= code <= LastGlyph {
        var g := glyphs[code - FirstGlyph];
        advance' := g.advance * scale;
        assert advance' == CharAdvance(glyphs, code, advance, scale);
        SubmitQuad(GlyphQuad(g, pos, scale), g.sub, tint);
      }
    }

    /** `submit(str, position, tint, charSize)`, proved to follow `SubmitString`. */
    method SubmitText(codes: seq<int>, pos: Vec2, tint: Colour, charSize: nat)
      requires Valid()
      modifies this`drawCount, this`trace, vertices, units, units.buffer
      ensures Valid()
      ensures State() == SubmitString(old(State()), glyphs, codes, pos, tint, CharScale(charSize)).batch
    {
      ghost var b0 := State();
      var advance := 0.0;
      var x := pos.x;
      var i := 0;
      while i < |codes|
        invariant 0 <= i <= |codes| && Valid()
        invariant Pen(State(), x, advance) == SubmitString(b0, glyphs, codes[..i], pos, tint, CharScale(charSize))
      {
        assert codes[..i + 1][..i] == codes[..i];
        advance := SubmitCharacter(codes[i], Vec2(x, pos.y), advance, tint, charSize);
        x := x + advance;
        i := i + 1;
      }
      assert codes[..|codes|] == codes;
    }
  }
}
