/** The CPU side of `Renderer` (Rendering.h, Rendering.cpp): a vertex buffer and
    an index buffer that are filled during a frame, handed to the draw call as
    one batch of triangles, and cleared. The OpenGL calls are not modelled. */
module Rendering {
  import opened Machine
  import opened Vectors
  import opened Colors

  /** `PI` and `DOUBLE_PI` of Rendering.h (a `float` literal there). */
  const Pi: real := 3.141592653589793
  const DoublePi: real := Pi * 2.0

  /** The default `segments_number` of `drawCircle`. */
  const DefaultSegments: uint32 := 40

  /** `Index` is `uint32_t` in the source; indices are unbounded here. */
  type Index = nat

  datatype Vertex = Vertex(pos: Vector2, col: ColorRGB)

  /** The buffers of `Renderer` and the viewport size stored by `setViewport`. */
  datatype Renderer = Renderer(vertices: seq<Vertex>, indices: seq<Index>, viewport: Vector2)

  /** What the draw call receives: the two buffers. */
  datatype Batch = Batch(vertices: seq<Vertex>, indices: seq<Index>)

  /** Every index names a vertex of the buffer. */
  predicate IndicesInRange(vertices: seq<Vertex>, indices: seq<Index>) {
    forall k :: 0 <= k < |indices| ==> indices[k] < |vertices|
  }

  /** The index buffer holds whole triangles. */
  predicate WholeTriangles(indices: seq<Index>) {
    |indices| % 3 == 0
  }

  /** The buffers form a drawable indexed triangle list. */
  predicate Valid(rd: Renderer) {
    IndicesInRange(rd.vertices, rd.indices) && WholeTriangles(rd.indices)
  }

  /** The exact-π idealisation of `sinf`/`cosf` at a full turn, under which
      the fan closes exactly on its start vertex. Neither the float functions
      at the float angle nor the true sine and cosine at the rational
      `DoublePi` satisfy it, so in the program the closing vertex is only
      close to the start vertex. */
  ghost predicate FullTurnLaw(m: Libm) {
    m.cos(DoublePi) == 1.0 && m.sin(DoublePi) == 0.0
  }

  /** `Vertex::operator==`: equal positions and equal colours. */
  function SameVertex(a: Vertex, b: Vertex): (r: bool)
    ensures r <==> a == b
  {
    SamePosition(a.pos, b.pos) && SameColor(a.col, b.col)
  }

  /** `Renderer()`: both buffers empty, viewport `Vector2()`. */
  function NewRenderer(): (rd: Renderer)
    ensures Valid(rd) && rd.vertices == [] && rd.indices == []
    ensures rd.viewport == Zero()
  {
    Renderer([], [], Zero())
  }

  /** `setViewport`, without the `glViewport` call: the buffers are untouched. */
  function SetViewport(rd: Renderer, viewport: Vector2): (r: Renderer)
    ensures r.viewport == viewport
    ensures r.vertices == rd.vertices && r.indices == rd.indices
  {
    rd.(viewport := viewport)
  }

  /** `clearBuffers`: empties both buffers, which is always a valid batch. */
  function ClearBuffers(rd: Renderer): (r: Renderer)
    ensures Valid(r) && |r.vertices| == 0 && |r.indices| == 0
    ensures r.viewport == rd.viewport
  {
    rd.(vertices := [], indices := [])
  }

  /** `render`, without the OpenGL calls: the buffers are handed to the draw
      call as one batch and then cleared. A valid renderer hands over a
      drawable batch. */
  function Render(rd: Renderer): (r: (Batch, Renderer))
    ensures r.0.vertices == rd.vertices && r.0.indices == rd.indices
    ensures Valid(rd) ==> IndicesInRange(r.0.vertices, r.0.indices) && WholeTriangles(r.0.indices)
    ensures r.1 == ClearBuffers(rd)
  {
    (Batch(rd.vertices, rd.indices), ClearBuffers(rd))
  }

  /** `addNewVertex`: appends without looking for duplicates and returns the
      old vertex count, which is the new vertex's position. */
  function AddNewVertex(rd: Renderer, v: Vertex): (r: (Renderer, Index))
    ensures r.1 == |rd.vertices| && |r.0.vertices| == r.1 + 1
    ensures r.0.vertices[r.1] == v && r.0.vertices[..r.1] == rd.vertices
    ensures r.0.indices == rd.indices && r.0.viewport == rd.viewport
    ensures IndicesInRange(rd.vertices, rd.indices) ==> IndicesInRange(r.0.vertices, r.0.indices)
  {
    (rd.(vertices := rd.vertices + [v]), |rd.vertices|)
  }

  /** `addIndex`: appends one index; an index of an existing vertex keeps
      every index in range. */
  function AddIndex(rd: Renderer, i: Index): (r: Renderer)
    ensures |r.indices| == |rd.indices| + 1 && r.indices[..|rd.indices|] == rd.indices
    ensures r.indices[|rd.indices|] == i
    ensures r.vertices == rd.vertices && r.viewport == rd.viewport
    ensures IndicesInRange(rd.vertices, rd.indices) && i < |rd.vertices| ==>
              IndicesInRange(r.vertices, r.indices)
  {
    rd.(indices := rd.indices + [i])
  }

  /** The linear scan of `addVertex` from position `i`: the first position at or
      after `i` holding a vertex equal to `v`, or `|vs|` when there is none. */
  function ScanFrom(vs: seq<Vertex>, v: Vertex, i: nat): (r: nat)
    requires i <= |vs|
    ensures i <= r <= |vs|
    ensures r < |vs| ==> vs[r] == v
    ensures forall j :: i <= j < r ==> vs[j] != v
    decreases |vs| - i
  {
    if i == |vs| then |vs|
    else if SameVertex(vs[i], v) then i
    else ScanFrom(vs, v, i + 1)
  }

  /** The lowest position of an equal vertex. */
  ghost predicate IsFirstMatch(vs: seq<Vertex>, v: Vertex, i: nat) {
    i < |vs| && vs[i] == v && forall j :: 0 <= j < i ==> vs[j] != v
  }

  /** `addVertex`: reuses the lowest equal vertex when there is one and appends
      otherwise; either way the returned index is pushed to the index buffer. */
  function AddVertex(rd: Renderer, v: Vertex): (r: (Renderer, Index))
    ensures r.0.indices == rd.indices + [r.1]
    ensures r.1 < |r.0.vertices| && r.0.vertices[r.1] == v
    ensures v in rd.vertices ==> r.0.vertices == rd.vertices && IsFirstMatch(rd.vertices, v, r.1)
    ensures v !in rd.vertices ==> r.0.vertices == rd.vertices + [v] && r.1 == |rd.vertices|
    ensures rd.vertices <= r.0.vertices && |r.0.vertices| <= |rd.vertices| + 1
    ensures IndicesInRange(rd.vertices, rd.indices) ==> IndicesInRange(r.0.vertices, r.0.indices)
    ensures r.0.viewport == rd.viewport
  {
    var i := ScanFrom(rd.vertices, v, 0);
    if i < |rd.vertices| then
      (AddIndex(rd, i), i)
    else
      var (added, index) := AddNewVertex(rd, v);
      (AddIndex(added, index), index)
  }

  /** Adding the same vertex twice gives the same index both times, and the
      vertex buffer grows by at most one vertex over the two calls. */
  lemma {:induction false} AddVertexTwice(rd: Renderer, v: Vertex)
    ensures var (r1, i1) := AddVertex(rd, v);
            var (r2, i2) := AddVertex(r1, v);
            i1 == i2 && r2.vertices == r1.vertices && |r1.vertices| <= |rd.vertices| + 1 &&
            r2.indices == rd.indices + [i1, i1]
  {
    var (r1, i1) := AddVertex(rd, v);
    var (r2, i2) := AddVertex(r1, v);
    assert v in r1.vertices;
    assert IsFirstMatch(r1.vertices, v, i1) by {
      if v !in rd.vertices {
        assert r1.vertices[..|rd.vertices|] == rd.vertices;
        forall j | 0 <= j < i1 ensures r1.vertices[j] != v {
          assert r1.vertices[j] == rd.vertices[j];
        }
      }
    }
    assert IsFirstMatch(r1.vertices, v, i2);
    assert r2.indices == (rd.indices + [i1]) + [i1];
  }

  /** Every index from position `from` on names a vertex equal to the
      corresponding element of `vs`. */
  predicate IndicesName(rd: Renderer, from: nat, vs: seq<Vertex>) {
    |rd.indices| == from + |vs| &&
    forall p :: from <= p < |rd.indices| ==>
      rd.indices[p] < |rd.vertices| && rd.vertices[rd.indices[p]] == vs[p - from]
  }

  /** `addVertex` on each vertex of `vs` in turn: one index per vertex, each
      naming a vertex equal to it. */
  function AddVertices(rd: Renderer, vs: seq<Vertex>): (r: Renderer)
    ensures IndicesName(r, |rd.indices|, vs) && r.indices[..|rd.indices|] == rd.indices
    ensures rd.vertices <= r.vertices && |r.vertices| <= |rd.vertices| + |vs|
    ensures IndicesInRange(rd.vertices, rd.indices) ==> IndicesInRange(r.vertices, r.indices)
    ensures r.viewport == rd.viewport
    decreases |vs|
  {
    if vs == [] then rd
    else
      var (first, index) := AddVertex(rd, vs[0]);
      var r := AddVertices(first, vs[1..]);
      AddVerticesCons(rd, vs, first, index, r);
      r
  }

  /** The step of `AddVertices`: the first vertex's index, followed by the
      indices of the rest. */
  lemma AddVerticesCons(rd: Renderer, vs: seq<Vertex>, first: Renderer, index: Index, r: Renderer)
    requires vs != [] && (first, index) == AddVertex(rd, vs[0])
    requires IndicesName(r, |first.indices|, vs[1..]) && r.indices[..|first.indices|] == first.indices
    requires first.vertices <= r.vertices
    ensures IndicesName(r, |rd.indices|, vs)
  {
    var n := |rd.indices|;
    forall p | n <= p < |r.indices|
      ensures r.indices[p] < |r.vertices| && r.vertices[r.indices[p]] == vs[p - n]
    {
      if p == n {
        assert r.indices[n] == first.indices[n] == index;
        assert r.vertices[index] == r.vertices[..|first.vertices|][index];
      } else {
        assert vs[p - n] == vs[1..][p - (n + 1)];
      }
    }
  }

  /** `drawPoligon`: three `addVertex` calls with the same colour, so it adds
      one triangle whose corners are the three points. The points are stored
      as given, without the viewport scaling of `drawCircle`. */
  function DrawPolygon(rd: Renderer, p1: Vector2, p2: Vector2, p3: Vector2, color: uint32): (r: Renderer)
    ensures var n := |rd.indices|;
            |r.indices| == n + 3 && r.indices[..n] == rd.indices &&
            r.indices[n] < |r.vertices| && r.vertices[r.indices[n]] == Vertex(p1, FromPacked(color)) &&
            r.indices[n + 1] < |r.vertices| && r.vertices[r.indices[n + 1]] == Vertex(p2, FromPacked(color)) &&
            r.indices[n + 2] < |r.vertices| && r.vertices[r.indices[n + 2]] == Vertex(p3, FromPacked(color))
    ensures rd.vertices <= r.vertices && |r.vertices| <= |rd.vertices| + 3
    ensures IndicesInRange(rd.vertices, rd.indices) ==> IndicesInRange(r.vertices, r.indices)
    ensures |r.indices| % 3 == |rd.indices| % 3
    ensures r.viewport == rd.viewport
  {
    var c := FromPacked(color);
    var vs := [Vertex(p1, c), Vertex(p2, c), Vertex(p3, c)];
    var r := AddVertices(rd, vs);
    var n := |rd.indices|;
    assert r.vertices[r.indices[n]] == vs[n - n];
    assert r.vertices[r.indices[n + 1]] == vs[n + 1 - n];
    assert r.vertices[r.indices[n + 2]] == vs[n + 2 - n];
    WholeTrianglesAdded(|rd.indices|, |r.indices|, 1);
    r
  }

  /** `2π / segments_number`. */
  function SegmentAngle(segments: nat): real
    requires 0 < segments
  {
    DoublePi * 1.0 / segments as real
  }

  /** The offset of rim vertex `k` of an `n`-segment fan from the centre: at
      angle `(k + 1) · 2π / n`, at distance `radius` (already scaled). */
  function RimOffset(radius: real, n: nat, k: nat, m: Libm): Vector2
    requires 0 < n
  {
    var angle := SegmentAngle(n) * (k + 1) as real;
    Vector2(m.cos(angle) * radius, m.sin(angle) * radius)
  }

  /** The rim vertices that the loop of `drawCircle` appends from segment
      `seg` on. */
  function RimFrom(centre: Vector2, radius: real, col: ColorRGB, n: nat, seg: nat, m: Libm): (rim: seq<Vertex>)
    requires seg <= n
    ensures |rim| == n - seg
  {
    seq(n - seg, j requires 0 <= j < n - seg => Vertex(Add(centre, RimOffset(radius, n, seg + j, m)), col))
  }

  /** The index pattern of a triangle fan of `count` triangles around vertex
      `c` whose rim starts at vertex `s`: triangle `t` is `(c, s + t, s + t + 1)`. */
  function FanIndices(c: Index, s: Index, count: nat): (fan: seq<Index>)
    ensures |fan| == 3 * count
  {
    seq(3 * count, p requires 0 <= p < 3 * count =>
      if p % 3 == 0 then c else if p % 3 == 1 then s + p / 3 else s + p / 3 + 1)
  }

  /** Triangle `t` of a fan, read off `FanIndices`. */
  lemma FanTriangle(c: Index, s: Index, count: nat, t: nat)
    requires t < count
    ensures FanIndices(c, s, count)[3 * t .. 3 * t + 3] == [c, s + t, s + t + 1]
  {
    var fan := FanIndices(c, s, count);
    assert fan[3 * t] == c;
    assert fan[3 * t + 1] == s + t;
    assert fan[3 * t + 2] == s + t + 1;
  }

  /** A fan is its first triangle followed by the fan on the next rim vertex. */
  lemma FanIndicesCons(c: Index, s: Index, count: nat)
    ensures [c, s, s + 1] + FanIndices(c, s + 1, count) == FanIndices(c, s, count + 1)
  {
    var lhs := [c, s, s + 1] + FanIndices(c, s + 1, count);
    var rhs := FanIndices(c, s, count + 1);
    forall p | 3 <= p < |rhs| ensures lhs[p] == rhs[p] {
      assert (p - 3) / 3 == p / 3 - 1 && (p - 3) % 3 == p % 3;
    }
  }

  /** The rim from segment `seg` is rim vertex `seg` followed by the rim from
      `seg + 1`. */
  lemma RimCons(centre: Vector2, radius: real, col: ColorRGB, n: nat, seg: nat, m: Libm)
    requires seg < n
    ensures RimFrom(centre, radius, col, n, seg, m) ==
            [Vertex(Add(centre, RimOffset(radius, n, seg, m)), col)] + RimFrom(centre, radius, col, n, seg + 1, m)
  {
  }

  /** The loop of `drawCircle` from segment `seg` on, with `prev` the last rim
      vertex added: each iteration appends one rim vertex and the triangle
      (centre, previous rim vertex, new rim vertex). */
  function FanFrom(rd: Renderer, centre: Vector2, radius: real, col: ColorRGB, n: nat, seg: nat,
                   centreIndex: Index, prev: Index, m: Libm): (r: Renderer)
    requires seg <= n
    requires prev + 1 == |rd.vertices|
    ensures r.vertices == rd.vertices + RimFrom(centre, radius, col, n, seg, m)
    ensures r.indices == rd.indices + FanIndices(centreIndex, prev, n - seg)
    ensures r.viewport == rd.viewport
    decreases n - seg
  {
    if seg == n then
      assert rd.vertices + RimFrom(centre, radius, col, n, seg, m) == rd.vertices;
      assert rd.indices + FanIndices(centreIndex, prev, 0) == rd.indices;
      rd
    else
      var v := Vertex(Add(centre, RimOffset(radius, n, seg, m)), col);
      var next := FanStep(rd, v, centreIndex, prev);
      RimCons(centre, radius, col, n, seg, m);
      FanIndicesCons(centreIndex, prev, n - seg - 1);
      var r := FanFrom(next, centre, radius, col, n, seg + 1, centreIndex, prev + 1, m);
      AppendThen(rd.vertices, [v], RimFrom(centre, radius, col, n, seg + 1, m));
      AppendThen(rd.indices, [centreIndex, prev, prev + 1], FanIndices(centreIndex, prev + 1, n - seg - 1));
      r
  }

  /** One iteration of the loop of `drawCircle`: the new rim vertex, then the
      triangle (centre, previous rim vertex, new rim vertex). */
  function FanStep(rd: Renderer, v: Vertex, centreIndex: Index, prev: Index): (r: Renderer)
    requires prev + 1 == |rd.vertices|
    ensures r.vertices == rd.vertices + [v]
    ensures r.indices == rd.indices + [centreIndex, prev, prev + 1]
    ensures r.viewport == rd.viewport
  {
    var (added, newIndex) := AddNewVertex(rd, v);
    var r := AddIndex(AddIndex(AddIndex(added, centreIndex), prev), newIndex);
    assert r.indices == rd.indices + [centreIndex, prev, prev + 1];
    r
  }

  /** Concatenation is associative. */
  lemma AppendThen<T>(a: seq<T>, b: seq<T>, c: seq<T>)
    ensures (a + b) + c == a + (b + c)
  {
  }

  /** The vertices `drawCircle` appends, in order: the centre divided
      componentwise by the viewport size; the start rim vertex at angle 0; one
      rim vertex per segment. The radius is divided by the viewport height
      only (`vert_ratio` is computed by the source and never used), so the
      circle is an ellipse unless the viewport is square. */
  function CircleVertices(center: Vector2, radius: real, color: uint32, segments: nat,
                          viewport: Vector2, m: Libm): (cv: seq<Vertex>)
    requires viewport.x != 0.0 && viewport.y != 0.0
    ensures |cv| == segments + 2
    ensures forall j :: 0 <= j < |cv| ==> cv[j].col == FromPacked(color)
    ensures cv[0].pos.x * viewport.x == center.x && cv[0].pos.y * viewport.y == center.y
    ensures Sub(cv[1].pos, cv[0].pos) == Vector2(radius / viewport.y, 0.0)
    ensures 0 < segments ==>
              forall j :: 2 <= j < |cv| ==>
                Sub(cv[j].pos, cv[0].pos) == RimOffset(radius / viewport.y, segments, j - 2, m)
  {
    var c := Vector2(center.x / viewport.x, center.y / viewport.y);
    var rad := radius / viewport.y;
    var col := FromPacked(color);
    [Vertex(c, col), Vertex(Add(c, Vector2(rad, 0.0)), col)] + RimFrom(c, rad, col, segments, 0, m)
  }

  /** `drawCircle`: a triangle fan of `segments` wedges built with
      `addNewVertex`, so the closing rim vertex at angle 2π is a second copy of
      the start vertex rather than a reuse of it. It appends exactly
      `segments + 2` vertices and `3 * segments` indices, and triangle `k` is
      (centre, rim vertex `k`, rim vertex `k + 1`). */
  function DrawCircle(rd: Renderer, center: Vector2, radius: real, color: uint32, segments: uint32, m: Libm): (r: Renderer)
    requires rd.viewport.x != 0.0 && rd.viewport.y != 0.0
    ensures r.vertices == rd.vertices + CircleVertices(center, radius, color, segments, rd.viewport, m)
    ensures r.indices == rd.indices + FanIndices(|rd.vertices|, |rd.vertices| + 1, segments)
    ensures |r.vertices| == |rd.vertices| + segments + 2
    ensures |r.indices| == |rd.indices| + 3 * segments
    ensures r.viewport == rd.viewport
  {
    var c := Vector2(center.x / rd.viewport.x, center.y / rd.viewport.y);
    var rad := radius / rd.viewport.y;
    var col := FromPacked(color);
    var first := [Vertex(c, col), Vertex(Add(c, Vector2(rad, 0.0)), col)];
    var (r1, centreIndex) := AddNewVertex(rd, first[0]);
    var (r2, startIndex) := AddNewVertex(r1, first[1]);
    assert r2.vertices == rd.vertices + first;
    var r := FanFrom(r2, c, rad, col, segments, 0, centreIndex, startIndex, m);
    AppendThen(rd.vertices, first, RimFrom(c, rad, col, segments, 0, m));
    r
  }

  /** A circle keeps a valid batch valid: every index it appends names one
      of its own vertices, and it appends whole triangles. */
  lemma DrawCircleKeepsValid(rd: Renderer, center: Vector2, radius: real, color: uint32, segments: uint32, m: Libm)
    requires rd.viewport.x != 0.0 && rd.viewport.y != 0.0
    ensures var r := DrawCircle(rd, center, radius, color, segments, m);
            (IndicesInRange(rd.vertices, rd.indices) ==> IndicesInRange(r.vertices, r.indices)) &&
            |r.indices| % 3 == |rd.indices| % 3
  {
    var r := DrawCircle(rd, center, radius, color, segments, m);
    FanInRange(rd, r, segments);
    WholeTrianglesAdded(|rd.indices|, |r.indices|, segments);
  }

  /** `segments` segment angles make a full turn. */
  lemma FullTurn(segments: nat)
    requires 0 < segments
    ensures SegmentAngle(segments) * (segments - 1 + 1) as real == DoublePi
  {
    var n := segments as real;
    assert (DoublePi * 1.0 / n) * n == DoublePi;
  }

  /** Appending whole triangles keeps the index count modulo 3. */
  lemma WholeTrianglesAdded(before: nat, after: nat, t: nat)
    requires after == before + 3 * t
    ensures after % 3 == before % 3
  {
  }

  /** Every index of a fan around centre `c` with rim `s ..` names either the
      centre or one of its `count + 1` rim vertices. */
  lemma FanSpan(c: Index, s: Index, count: nat)
    ensures forall p :: 0 <= p < 3 * count ==>
              FanIndices(c, s, count)[p] == c || s <= FanIndices(c, s, count)[p] <= s + count
  {
    forall p | 0 <= p < 3 * count
      ensures FanIndices(c, s, count)[p] == c || s <= FanIndices(c, s, count)[p] <= s + count
    {
      assert p / 3 < count;
    }
  }

  /** The fan appended by `drawCircle` only names vertices of the new buffer. */
  lemma FanInRange(rd: Renderer, r: Renderer, segments: nat)
    requires |r.vertices| == |rd.vertices| + segments + 2
    requires r.indices == rd.indices + FanIndices(|rd.vertices|, |rd.vertices| + 1, segments)
    ensures IndicesInRange(rd.vertices, rd.indices) ==> IndicesInRange(r.vertices, r.indices)
  {
    var v0 := |rd.vertices|;
    var fan := FanIndices(v0, v0 + 1, segments);
    forall p | 0 <= p < |fan| ensures fan[p] < |r.vertices| {
      assert p / 3 < segments;
    }
  }

  /** Triangle `k` of a circle is the centre followed by rim vertices `k` and
      `k + 1` (counting the start vertex as rim vertex 0). */
  lemma DrawCircleTriangle(rd: Renderer, center: Vector2, radius: real, color: uint32, segments: uint32, m: Libm, k: nat)
    requires rd.viewport.x != 0.0 && rd.viewport.y != 0.0
    requires k < segments
    ensures var r := DrawCircle(rd, center, radius, color, segments, m);
            var v0, t := |rd.vertices|, |rd.indices| + 3 * k;
            r.indices[t] == v0 && r.indices[t + 1] == v0 + 1 + k && r.indices[t + 2] == v0 + 2 + k
  {
    var r := DrawCircle(rd, center, radius, color, segments, m);
    AppendedFanTriangle(rd.indices, r.indices, |rd.vertices|, segments, k);
  }

  /** Triangle `k` of a fan appended to an index buffer. */
  lemma AppendedFanTriangle(before: seq<Index>, after: seq<Index>, v0: Index, segments: nat, k: nat)
    requires k < segments
    requires after == before + FanIndices(v0, v0 + 1, segments)
    ensures var t := |before| + 3 * k;
            after[t] == v0 && after[t + 1] == v0 + 1 + k && after[t + 2] == v0 + 2 + k
  {
    var fan := FanIndices(v0, v0 + 1, segments);
    assert fan[3 * k] == v0 && fan[3 * k + 1] == v0 + 1 + k && fan[3 * k + 2] == v0 + 2 + k;
  }

  /** Under the full-turn idealisation the last rim vertex of a circle, at
      angle `2π`, is the start vertex again. */
  lemma CircleCloses(center: Vector2, radius: real, color: uint32, segments: nat, viewport: Vector2, m: Libm)
    requires viewport.x != 0.0 && viewport.y != 0.0
    requires 0 < segments && FullTurnLaw(m)
    ensures var cv := CircleVertices(center, radius, color, segments, viewport, m);
            cv[segments + 1] == cv[1]
  {
    var cv := CircleVertices(center, radius, color, segments, viewport, m);
    var rad := radius / viewport.y;
    FullTurn(segments);
    assert RimOffset(rad, segments, segments - 1, m) == Vector2(rad, 0.0);
    assert Sub(cv[segments + 1].pos, cv[0].pos) == Sub(cv[1].pos, cv[0].pos);
  }

  /** Under the full-turn idealisation the closing vertex of the fan equals
      the start vertex, yet it sits at a different position of the buffer:
      the fan does not share it. */
  lemma {:induction false} ClosingVertexIsCopy(rd: Renderer, center: Vector2, radius: real, color: uint32, segments: uint32, m: Libm)
    requires rd.viewport.x != 0.0 && rd.viewport.y != 0.0
    requires 0 < segments && FullTurnLaw(m)
    ensures var r := DrawCircle(rd, center, radius, color, segments, m);
            var v0 := |rd.vertices|;
            r.vertices[v0 + segments + 1] == r.vertices[v0 + 1] && v0 + segments + 1 != v0 + 1
  {
    var r := DrawCircle(rd, center, radius, color, segments, m);
    var cv := CircleVertices(center, radius, color, segments, rd.viewport, m);
    var v0 := |rd.vertices|;
    CircleCloses(center, radius, color, segments, rd.viewport, m);
    assert r.vertices[v0 + segments + 1] == cv[segments + 1];
    assert r.vertices[v0 + 1] == cv[1];
  }
}
