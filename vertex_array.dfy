/**
 * `OpenGLVertexArray`: vertex buffers are appended in order and every element of a buffer's
 * layout is given one attribute index, or one per column for a `Mat4`, from a counter that
 * is never reset, so the indices over all buffers run 0, 1, 2, … The attribute set-up calls
 * are recorded as a ghost trace, one entry per index.
 */
module VertexArray {
  import opened Wrappers

  /** The shader data types `toGLType` distinguishes; any other enumerator is `Other`. */
  datatype DataType =
    | FlatByte | FlatInt | Byte4 | Short | Short2 | Short3 | Short4
    | Float | Float2 | Float3 | Float4 | Mat4 | Int | Other(tag: nat)

  /** The GL enumerants, as in the OpenGL 4.6 Core Profile specification's tables. */
  const GlByte: nat := 0x1400
  const GlUnsignedByte: nat := 0x1401
  const GlShort: nat := 0x1402
  const GlInt: nat := 0x1404
  const GlFloat: nat := 0x1406
  const GlInvalidEnum: nat := 0x0500

  /**
   * `SDT::toGLType`, stated by result: the float types and `Mat4` are floats, the two integer
   * types are ints, the short types are shorts, `Byte4` is unsigned and `FlatByte` signed
   * bytes, and anything else is an invalid enumerant.
   */
  function ToGLType(t: DataType): (r: nat)
    ensures r == GlFloat <==> t in {Float, Float2, Float3, Float4, Mat4}
    ensures r == GlInt <==> t in {FlatInt, Int}
    ensures r == GlShort <==> t in {Short, Short2, Short3, Short4}
    ensures r == GlUnsignedByte <==> t == Byte4
    ensures r == GlByte <==> t == FlatByte
    ensures r == GlInvalidEnum <==> t.Other?
  {
    match t
    case FlatByte => GlByte
    case FlatInt => GlInt
    case Byte4 => GlUnsignedByte
    case Short => GlShort
    case Short2 => GlShort
    case Short3 => GlShort
    case Short4 => GlShort
    case Float => GlFloat
    case Float2 => GlFloat
    case Float3 => GlFloat
    case Float4 => GlFloat
    case Mat4 => GlFloat
    case Int => GlInt
    case Other(_) => GlInvalidEnum
  }

  /** A `BufferElement`. */
  datatype Element = Element(dataType: DataType, normalised: bool, offset: nat, divisor: nat)

  /** A vertex buffer: its id, the elements of its layout and the layout's stride. */
  datatype Buffer = Buffer(id: nat, layout: seq<Element>, stride: nat)

  datatype IndexBuffer = IndexBuffer(id: nat, count: nat)

  /**
   * One enabled attribute: its index, the component count, the GL type, the normalised flag,
   * the stride, the byte offset, whether the integer attribute call was used, and the divisor.
   */
  datatype Attribute = Attribute(index: nat, size: nat, glType: nat, normalised: bool, stride: nat,
                                 offset: nat, integer: bool, divisor: nat)

  predicate IsFlat(t: DataType)
  {
    t == FlatByte || t == FlatInt
  }

  /** `count` in the `Mat4` branch: the component count stored in a `uint8_t`. */
  function ColumnCount(components: DataType -> nat): nat
  {
    components(Mat4) % 256
  }

  /** The attribute indices one element takes. */
  function Consumes(e: Element, components: DataType -> nat): nat
  {
    if e.dataType == Mat4 then ColumnCount(components) else 1
  }

  /** The `Mat4` columns from column `i` on, at indices from `start`. */
  function Columns(e: Element, stride: nat, count: nat, i: nat, start: nat): seq<Attribute>
    requires i <= count
    decreases count - i
  {
    if i == count then []
    else
      [Attribute(start, count, GlFloat, e.normalised, stride, 4 * count * i, false, e.divisor)]
        + Columns(e, stride, count, i + 1, start + 1)
  }

  /** The attributes one element enables, at indices from `start`. */
  function ElementAttributes(e: Element, stride: nat, components: DataType -> nat, start: nat): seq<Attribute>
  {
    if IsFlat(e.dataType) then
      [Attribute(start, components(e.dataType), ToGLType(e.dataType), false, stride, e.offset, true, e.divisor)]
    else if e.dataType == Mat4 then
      Columns(e, stride, ColumnCount(components), 0, start)
    else
      [Attribute(start, components(e.dataType), ToGLType(e.dataType), e.normalised, stride, e.offset, false, e.divisor)]
  }

  /** The attributes of the layout's elements from element k on, at indices from `start`. */
  function LayoutAttributes(layout: seq<Element>, k: nat, stride: nat, components: DataType -> nat, start: nat): seq<Attribute>
    requires k <= |layout|
    decreases |layout| - k
  {
    if k == |layout| then []
    else
      var first := ElementAttributes(layout[k], stride, components, start);
      first + LayoutAttributes(layout, k + 1, stride, components, start + |first|)
  }

  /** The attributes run over consecutive indices from `start`. */
  predicate Consecutive(attrs: seq<Attribute>, start: nat)
  {
    forall k :: 0 <= k < |attrs| ==> attrs[k].index == start + k
  }

  /** Column j of a `Mat4` has index start + j and byte offset 4·count·(i + j), whatever the element's own offset. */
  lemma {:induction false} ColumnsLaidOut(e: Element, stride: nat, count: nat, i: nat, start: nat)
    requires i <= count
    ensures var cs := Columns(e, stride, count, i, start);
      |cs| == count - i && Consecutive(cs, start)
      && forall j :: 0 <= j < |cs| ==> cs[j].offset == 4 * count * (i + j) && cs[j].size == count && !cs[j].integer
    decreases count - i
  {
    if i < count {
      ColumnsLaidOut(e, stride, count, i + 1, start + 1);
      var cs := Columns(e, stride, count, i, start);
      var rest := Columns(e, stride, count, i + 1, start + 1);
      forall j | 0 <= j < |cs|
        ensures cs[j].index == start + j && cs[j].offset == 4 * count * (i + j)
      {
        if j > 0 {
          assert cs[j] == rest[j - 1];
        }
      }
    }
  }

  /**
   * A flat element takes one index on the integer path; a `Mat4` takes one index per column;
   * any other element takes one index with its own offset and normalised flag.
   */
  lemma {:induction false} ElementLaidOut(e: Element, stride: nat, components: DataType -> nat, start: nat)
    ensures var a := ElementAttributes(e, stride, components, start);
      |a| == Consumes(e, components) && Consecutive(a, start)
      && (IsFlat(e.dataType) ==> a[0].integer && a[0].offset == e.offset)
      && (!IsFlat(e.dataType) && e.dataType != Mat4 ==> !a[0].integer && a[0].offset == e.offset && a[0].normalised == e.normalised)
  {
    if e.dataType == Mat4 {
      ColumnsLaidOut(e, stride, ColumnCount(components), 0, start);
    }
  }

  /** A layout's attributes take consecutive indices from `start`. */
  lemma {:induction false} LayoutLaidOut(layout: seq<Element>, k: nat, stride: nat, components: DataType -> nat, start: nat)
    requires k <= |layout|
    ensures Consecutive(LayoutAttributes(layout, k, stride, components, start), start)
    decreases |layout| - k
  {
    if k < |layout| {
      var first := ElementAttributes(layout[k], stride, components, start);
      ElementLaidOut(layout[k], stride, components, start);
      LayoutLaidOut(layout, k + 1, stride, components, start + |first|);
      ConsecutiveJoin(first, LayoutAttributes(layout, k + 1, stride, components, start + |first|), start);
    }
  }

  /** Attributes numbered from `start` followed by attributes numbered on from there are numbered from `start`. */
  lemma {:induction false} ConsecutiveJoin(a: seq<Attribute>, b: seq<Attribute>, start: nat)
    requires Consecutive(a, start) && Consecutive(b, start + |a|)
    ensures Consecutive(a + b, start)
  {
    forall k | 0 <= k < |a + b|
      ensures (a + b)[k].index == start + k
    {
      if k >= |a| {
        assert (a + b)[k] == b[k - |a|];
      }
    }
  }

  class VertexArrayObject {
    /** `SDT::componentCount`, which is not part of this model, taken as given. */
    const components: DataType -> nat
    var vertexBuffers: seq<Buffer>
    var attributeIndex: nat
    var indexBuffer: Option<IndexBuffer>
    ghost var attributes: seq<Attribute>

    /** Every index handed out so far is its position in the trace, and the counter is the next one. */
    ghost predicate Valid()
      reads this
    {
      attributeIndex == |attributes| && Consecutive(attributes, 0)
    }

    constructor (components: DataType -> nat)
      ensures Valid() && this.components == components
      ensures vertexBuffers == [] && attributeIndex == 0 && indexBuffer.None? && attributes == []
    {
      this.components := components;
      vertexBuffers := [];
      attributeIndex := 0;
      indexBuffer := None;
      attributes := [];
    }

    /**
     * The `Mat4` branch: one attribute per column, at byte offsets 4·count·i. Proved to follow
     * `Columns`.
     */
    method AddColumns(e: Element, stride: nat)
      requires e.dataType == Mat4
      modifies this`attributeIndex, this`attributes
      ensures attributeIndex == old(attributeIndex) + ColumnCount(components)
      ensures attributes == old(attributes) + Columns(e, stride, ColumnCount(components), 0, old(attributeIndex))
    {
      var count := ColumnCount(components);
      for i := 0 to count
        invariant attributeIndex == old(attributeIndex) + i
        invariant attributes + Columns(e, stride, count, i, attributeIndex)
          == old(attributes) + Columns(e, stride, count, 0, old(attributeIndex))
      {
        attributes := attributes + [Attribute(attributeIndex, count, ToGLType(e.dataType), e.normalised, stride, 4 * count * i, false, e.divisor)];
        attributeIndex := attributeIndex + 1;
      }
    }

    /** One element of the layout loop, proved to follow `ElementAttributes`. */
    method AddElement(e: Element, stride: nat)
      modifies this`attributeIndex, this`attributes
      ensures attributes == old(attributes) + ElementAttributes(e, stride, components, old(attributeIndex))
      ensures attributeIndex == old(attributeIndex) + |ElementAttributes(e, stride, components, old(attributeIndex))|
    {
      if e.dataType == FlatByte || e.dataType == FlatInt {
        attributes := attributes + [Attribute(attributeIndex, components(e.dataType), ToGLType(e.dataType), false, stride, e.offset, true, e.divisor)];
        attributeIndex := attributeIndex + 1;
      } else if e.dataType == Mat4 {
        AddColumns(e, stride);
        ColumnsLaidOut(e, stride, ColumnCount(components), 0, old(attributeIndex));
      } else {
        attributes := attributes + [Attribute(attributeIndex, components(e.dataType), ToGLType(e.dataType), e.normalised, stride, e.offset, false, e.divisor)];
        attributeIndex := attributeIndex + 1;
      }
    }

    /**
     * `addVertexBuffer`: append the buffer, then give its layout's elements consecutive
     * indices from where the counter stands; the counter is not reset afterwards.
     */
    method AddVertexBuffer(vb: Buffer)
      requires Valid()
      modifies this`vertexBuffers, this`attributeIndex, this`attributes
      ensures Valid()
      ensures vertexBuffers == old(vertexBuffers) + [vb]
      ensures attributes == old(attributes) + LayoutAttributes(vb.layout, 0, vb.stride, components, old(attributeIndex))
    {
      vertexBuffers := vertexBuffers + [vb];
      ghost var done := attributes;
      var k := 0;
      while k < |vb.layout|
        invariant 0 <= k <= |vb.layout| && vertexBuffers == old(vertexBuffers) + [vb]
        invariant attributes + LayoutAttributes(vb.layout, k, vb.stride, components, attributeIndex)
          == done + LayoutAttributes(vb.layout, 0, vb.stride, components, |done|)
        invariant attributeIndex == |attributes|
      {
        AddNext(vb, k);
        k := k + 1;
      }
      assert LayoutAttributes(vb.layout, k, vb.stride, components, attributeIndex) == [];
      assert attributes == done + LayoutAttributes(vb.layout, 0, vb.stride, components, |done|);
      LayoutLaidOut(vb.layout, 0, vb.stride, components, |done|);
      ConsecutiveJoin(done, LayoutAttributes(vb.layout, 0, vb.stride, components, |done|), 0);
    }

    /** One turn of the layout loop: the attributes still to come lose their first element's share to the trace. */
    method AddNext(vb: Buffer, k: nat)
      requires k < |vb.layout| && attributeIndex == |attributes|
      modifies this`attributeIndex, this`attributes
      ensures attributeIndex == |attributes|
      ensures attributes + LayoutAttributes(vb.layout, k + 1, vb.stride, components, attributeIndex)
        == old(attributes) + LayoutAttributes(vb.layout, k, vb.stride, components, old(attributeIndex))
    {
      ghost var first := ElementAttributes(vb.layout[k], vb.stride, components, attributeIndex);
      ghost var rest := LayoutAttributes(vb.layout, k + 1, vb.stride, components, attributeIndex + |first|);
      ghost var before := attributes;
      AddElement(vb.layout[k], vb.stride);
      Regroup(before, first, rest);
    }

    /** `setIndexBuffer`: the new index buffer replaces any previous one. */
    method SetIndexBuffer(ib: IndexBuffer)
      modifies this`indexBuffer
      ensures indexBuffer == Some(ib)
    {
      indexBuffer := Some(ib);
    }

    /** `getDrawCount`: the index buffer's count, or 0 without one. */
    function DrawCount(): (n: nat)
      reads this`indexBuffer
      ensures indexBuffer.Some? ==> n == indexBuffer.value.count
      ensures indexBuffer.None? ==> n == 0
    {
      if indexBuffer.Some? then indexBuffer.value.count else 0
    }
  }
}
