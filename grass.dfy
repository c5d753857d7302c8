/** The grass blade demo: the constant blade mesh (vertex table, vertex buffer
    layout, index list), the indexed draw that uses it, and the per-frame
    counter that drives the one-float `time` uniform. */
module Grass {
  import opened U32

  const FLOAT32_BYTES: nat := 4

  /** X, Y, Z, then R, G, B. */
  const FLOATS_PER_VERTEX: nat := 6

  const VERTEX_COUNT: nat := 5

  /** The vertex numbered 4 is the tip; 0..3 are the corners of the base square. */
  const TIP: nat := 4

  /** The `vertices` table: four base corners at z = 0 (top right, bottom right,
      bottom left, top left) and the tip above the centre, each with its colour.
      Values are the decimal literals of the table, as exact reals. */
  function Vertices(): (v: seq<real>)
    ensures |v| == VERTEX_COUNT * FLOATS_PER_VERTEX
    ensures forall k, c :: 0 <= k < VERTEX_COUNT && 3 <= c < FLOATS_PER_VERTEX ==>
              0.0 <= Component(v, k, c) <= 1.0
  {
    [ 0.8,  0.8, 0.0,   1.0, 0.0, 0.0,
      0.8, -0.8, 0.0,   0.0, 1.0, 0.0,
     -0.8, -0.8, 0.0,   0.0, 0.0, 1.0,
     -0.8,  0.8, 0.0,   1.0, 1.0, 0.2,
      0.0,  0.0, 0.8,   1.0, 1.0, 1.0 ]
  }

  /** Float number c of vertex k in a vertex table. */
  function Component(v: seq<real>, k: nat, c: nat): real
    requires k < VERTEX_COUNT && c < FLOATS_PER_VERTEX && |v| == VERTEX_COUNT * FLOATS_PER_VERTEX
  {
    v[k * FLOATS_PER_VERTEX + c]
  }

  // ---------------------------------------------------------------------
  // Vertex buffer layout

  datatype VertexFormat = Float32x3

  function FormatBytes(f: VertexFormat): nat
  {
    match f
    case Float32x3 => 3 * FLOAT32_BYTES
  }

  datatype VertexAttribute = VertexAttribute(format: VertexFormat, offset: nat, shaderLocation: nat)

  datatype VertexBufferLayout = VertexBufferLayout(arrayStride: nat, attributes: seq<VertexAttribute>)

  /** First byte past attribute a within a vertex. */
  function AttributeEnd(a: VertexAttribute): nat
  {
    a.offset + FormatBytes(a.format)
  }

  /** Every attribute ends within the stride, no two attributes share a byte, and
      no two use the same shader location. */
  predicate WellFormed(layout: VertexBufferLayout)
  {
    (forall i :: 0 <= i < |layout.attributes| ==> AttributeEnd(layout.attributes[i]) <= layout.arrayStride) &&
    (forall i, j :: 0 <= i < j < |layout.attributes| ==>
       AttributeEnd(layout.attributes[i]) <= layout.attributes[j].offset ||
       AttributeEnd(layout.attributes[j]) <= layout.attributes[i].offset) &&
    (forall i, j :: 0 <= i < j < |layout.attributes| ==>
       layout.attributes[i].shaderLocation != layout.attributes[j].shaderLocation)
  }

  /** `vertexBufferLayout`: a 24-byte stride holding position (location 0, bytes
      0..12) and colour (location 1, bytes 12..24). */
  function GrassVertexLayout(): (layout: VertexBufferLayout)
    ensures WellFormed(layout)
    ensures layout.arrayStride == FLOATS_PER_VERTEX * FLOAT32_BYTES
    ensures |layout.attributes| == 2
    ensures layout.attributes[0].shaderLocation == 0 && layout.attributes[0].offset == 0
    ensures layout.attributes[1].shaderLocation == 1
    ensures AttributeEnd(layout.attributes[0]) == layout.attributes[1].offset
    ensures AttributeEnd(layout.attributes[1]) == layout.arrayStride
  {
    VertexBufferLayout(24, [VertexAttribute(Float32x3, 0, 0), VertexAttribute(Float32x3, 12, 1)])
  }

  /** The vertex buffer is `vertices.byteLength` bytes: exactly one stride per
      vertex, and the position and colour attributes of vertex k read floats
      0..3 and 3..6 of its row of the table. */
  lemma VertexBufferHoldsOneStridePerVertex()
    ensures |Vertices()| * FLOAT32_BYTES == VERTEX_COUNT * GrassVertexLayout().arrayStride
    ensures GrassVertexLayout().attributes[0].offset == 0 * FLOAT32_BYTES
    ensures GrassVertexLayout().attributes[1].offset == 3 * FLOAT32_BYTES
  {
  }

  // ---------------------------------------------------------------------
  // Index list and draw

  /** The `indexes` table: the base square as two triangles, then the four sides. */
  function Indexes(): (ix: seq<u32>)
    ensures |ix| == 18 && |ix| % 3 == 0
    ensures forall i :: 0 <= i < |ix| ==> ix[i] < VERTEX_COUNT
  {
    [0, 1, 2, 0, 2, 3, 0, 1, 4, 1, 2, 4, 2, 3, 4, 3, 0, 4]
  }

  /** Triangle t of an index list: its indices 3t, 3t + 1, 3t + 2. */
  function Triangle(ix: seq<u32>, t: nat): (nat, nat, nat)
    requires 3 * t + 2 < |ix|
  {
    (ix[3 * t], ix[3 * t + 1], ix[3 * t + 2])
  }

  /** Corner (x, y, z) of vertex k. */
  function Position(k: nat): (real, real, real)
    requires k < VERTEX_COUNT
  {
    var v := Vertices();
    (Component(v, k, 0), Component(v, k, 1), Component(v, k, 2))
  }

  /** The index list has six triangles, each with three distinct vertices; the
      first two share the diagonal 0-2 and together cover the base square. */
  lemma TrianglesNonDegenerate()
    ensures |Indexes()| / 3 == 6
    ensures forall t :: 0 <= t < |Indexes()| / 3 ==>
              Triangle(Indexes(), t).0 != Triangle(Indexes(), t).1 &&
              Triangle(Indexes(), t).1 != Triangle(Indexes(), t).2 &&
              Triangle(Indexes(), t).0 != Triangle(Indexes(), t).2
    ensures Triangle(Indexes(), 0) == (0, 1, 2) && Triangle(Indexes(), 1) == (0, 2, 3)
  {
  }

  /** Side k of the blade: triangle 2 + k of the index list. */
  function Side(k: nat): (nat, nat, nat)
    requires k < 4
  {
    Triangle(Indexes(), 2 + k)
  }

  /** The four sides join each pair of consecutive base corners (k, k + 1 mod 4)
      to the tip. */
  lemma SidesFanToTip()
    ensures forall k :: 0 <= k < 4 ==> Side(k) == (k, (k + 1) % 4, TIP)
  {
  }

  /** The four base corners lie at z = 0 and consecutive ones are adjacent
      corners of the square (they differ in exactly one coordinate), so each side
      stands on an edge of the base; the tip lies above the base. */
  lemma BaseCornersAdjacent()
    ensures forall k :: 0 <= k < 4 ==>
              Position(k).2 == 0.0 &&
              (Position(k).0 == Position((k + 1) % 4).0 <==> Position(k).1 != Position((k + 1) % 4).1)
    ensures Position(TIP).2 > 0.0
  {
    CornerCoordinates();
    forall k | 0 <= k < 4
      ensures Position(k).2 == 0.0 &&
              (Position(k).0 == Position((k + 1) % 4).0 <==> Position(k).1 != Position((k + 1) % 4).1)
    {
      if k == 3 {
        assert (k + 1) % 4 == 0;
      }
    }
  }

  /** Proof step of BaseCornersAdjacent: the coordinates of the five vertices,
      read off the table one row at a time. */
  lemma CornerCoordinates()
    ensures Position(0) == (0.8, 0.8, 0.0) && Position(1) == (0.8, -0.8, 0.0)
    ensures Position(2) == (-0.8, -0.8, 0.0) && Position(3) == (-0.8, 0.8, 0.0)
    ensures Position(TIP) == (0.0, 0.0, 0.8)
  {
    var v := Vertices();
    assert Position(0) == (v[0], v[1], v[2]);
    assert Position(1) == (v[6], v[7], v[8]);
    assert Position(2) == (v[12], v[13], v[14]);
    assert Position(3) == (v[18], v[19], v[20]);
    assert Position(TIP) == (v[24], v[25], v[26]);
  }

  /** Index format "uint32": four bytes per index. */
  const INDEX_BYTES: nat := 4

  /** Size of the index buffer, `indexes.byteLength`. */
  function IndexBufferBytes(): nat
  {
    |Indexes()| * INDEX_BYTES
  }

  /** `drawIndexed(indexCount, instanceCount, firstIndex, baseVertex, firstInstance)`. */
  datatype DrawIndexed = DrawIndexed(indexCount: nat, instanceCount: nat, firstIndex: nat,
                                     baseVertex: int, firstInstance: nat)

  /** The draw of `updateGrid`: every index of the list once, one blade instance.
      Every index it reads lies within the index buffer and every vertex it
      fetches lies within the vertex buffer. */
  function GrassDraw(): (d: DrawIndexed)
    ensures d.indexCount == |Indexes()| && d.instanceCount == 1
    ensures (d.firstIndex + d.indexCount) * INDEX_BYTES <= IndexBufferBytes()
    ensures forall j :: d.firstIndex <= j < d.firstIndex + d.indexCount ==>
              0 <= d.baseVertex + Indexes()[j] < VERTEX_COUNT
  {
    DrawIndexed(|Indexes()|, 1, 0, 0, 0)
  }

  // ---------------------------------------------------------------------
  // Frame counter

  /** Size of the time uniform buffer. */
  const TIME_UNIFORM_BYTES: nat := 4

  /** The frame counter: `step`, the one-element `Float32Array` `time`, and the
      contents of the time uniform buffer as last written by `writeBuffer`. */
  class FrameLoop {
    var step: nat
    var time: array<real>
    var timeUniform: seq<real>

    /** `time` fills the uniform buffer exactly, and both hold the frame count. */
    ghost predicate Valid()
      reads this, time
    {
      time.Length == 1 && time.Length * FLOAT32_BYTES == TIME_UNIFORM_BYTES &&
      time[0] == step as real && timeUniform == time[..]
    }

    /** `time` starts at [0], is written into the uniform buffer, and no frame has run. */
    constructor ()
      ensures Valid() && fresh(time)
      ensures step == 0 && timeUniform == [0.0]
    {
      var t := new real[1](_ => 0.0);
      time := t;
      timeUniform := t[..];
      step := 0;
    }

    /** `updateGrid`: one more frame, `time[0] = step`, the whole of `time`
        written to the uniform buffer at offset 0, then the indexed draw. */
    method UpdateGrid() returns (draw: DrawIndexed)
      requires Valid()
      modifies this, time
      ensures Valid() && time == old(time)
      ensures step == old(step) + 1
      ensures timeUniform == [old(timeUniform)[0] + 1.0]
      ensures draw == GrassDraw()
    {
      step := step + 1;
      time[0] := step as real;
      timeUniform := time[..];
      draw := GrassDraw();
    }
  }
}
