/** Drawing one fetched row: the stroke-width clamp, the line-string check and
    the move-to / line-to path built from the projected vertices, issued
    against a canvas that collects the stroked paths. */
module Render {
  import opened Projection

  /** The GEOS type id of a line string (`GEOS_LINESTRING`). */
  const LineStringTypeId := 1

  /** One fetched row once decoded: the GEOS type id of its geometry, the
      vertices of the geometry in order, and the second column read as a
      number. */
  datatype Row = Row(typeId: int, vertices: seq<Coord>, width: real)

  predicate IsLineString(row: Row) {
    row.typeId == LineStringTypeId
  }

  /** The stroke width of a row: a value above 10 is replaced by 1.0. */
  function StrokeWidth(raw: real): (w: real)
    ensures raw > 10.0 ==> w == 1.0
    ensures raw <= 10.0 ==> w == raw
    ensures w <= 10.0
  {
    if raw > 10.0 then 1.0 else raw
  }

  /** The path-construction calls that reach the canvas. */
  datatype PathCommand = MoveTo(x: real, y: real) | LineTo(x: real, y: real)

  /** A stroked path: the line width in force and the commands in order. */
  datatype Path = Path(width: real, commands: seq<PathCommand>)

  /** The point a command goes to. */
  function Target(c: PathCommand): (real, real) {
    (c.x, c.y)
  }

  /** The commands the coordinate loop issues for the vertices `vs`: the
      vertex with index 0 is a move-to, every later one a line-to. */
  function Trace(v: Viewport, vs: seq<Coord>): (r: seq<PathCommand>)
    requires HasPositiveSpans(v)
    ensures |r| == |vs|
    ensures vs != [] ==> r[0].MoveTo?
  {
    if vs == [] then []
    else
      var p := Project(v, vs[|vs| - 1]);
      Trace(v, vs[..|vs| - 1]) + [if |vs| == 1 then MoveTo(p.0, p.1) else LineTo(p.0, p.1)]
  }

  /** The path of n vertices is exactly one move-to the projection of vertex
      0, then n - 1 line-tos to the projections of vertices 1 .. n - 1, in
      order. */
  lemma {:induction false} TraceShape(v: Viewport, vs: seq<Coord>)
    requires HasPositiveSpans(v)
    ensures |Trace(v, vs)| == |vs|
    ensures |vs| > 0 ==> Trace(v, vs)[0] == MoveTo(ProjectX(v, vs[0].0), ProjectY(v, vs[0].1))
    ensures forall i :: 1 <= i < |vs| ==>
      Trace(v, vs)[i] == LineTo(ProjectX(v, vs[i].0), ProjectY(v, vs[i].1))
  {
    if vs != [] {
      var front := vs[..|vs| - 1];
      TraceShape(v, front);
      assert forall i :: 0 <= i < |front| ==> front[i] == vs[i];
    }
  }

  /** The geographic points a sequence of commands visits, unprojected. */
  function Visited(v: Viewport, cs: seq<PathCommand>): seq<Coord>
    requires IsInvertible(v)
  {
    if cs == [] then [] else Visited(v, cs[..|cs| - 1]) + [Unproject(v, Target(cs[|cs| - 1]))]
  }

  /** Unprojecting the points of a traced path gives back the vertices, in
      their original order and number. */
  lemma {:induction false} TraceKeepsVertices(v: Viewport, vs: seq<Coord>)
    requires IsInvertible(v)
    ensures Visited(v, Trace(v, vs)) == vs
  {
    if vs != [] {
      var front := vs[..|vs| - 1];
      TraceKeepsVertices(v, front);
      var cs := Trace(v, vs);
      assert cs[..|cs| - 1] == Trace(v, front);
      UnprojectProject(v, vs[|vs| - 1]);
      assert Target(cs[|cs| - 1]) == Project(v, vs[|vs| - 1]);
    }
  }

  /** The paths one row adds to the canvas: none for a geometry that is not
      a line string, otherwise one path at the clamped width. */
  function RowPaths(v: Viewport, row: Row): (r: seq<Path>)
    requires HasPositiveSpans(v)
    ensures |r| == if IsLineString(row) then 1 else 0
  {
    if IsLineString(row) then [Path(StrokeWidth(row.width), Trace(v, row.vertices))] else []
  }

  /** The paths a sequence of rows adds, row after row. */
  function RowsPaths(v: Viewport, rows: seq<Row>): (r: seq<Path>)
    requires HasPositiveSpans(v)
  {
    if rows == [] then [] else RowPaths(v, rows[0]) + RowsPaths(v, rows[1..])
  }

  /** The rows whose geometry is a line string, in order: a row is kept
      exactly when it is a line string. */
  function LineStrings(rows: seq<Row>): (r: seq<Row>)
    ensures forall x :: x in r <==> x in rows && IsLineString(x)
  {
    if rows == [] then []
    else if IsLineString(rows[0]) then [rows[0]] + LineStrings(rows[1..])
    else LineStrings(rows[1..])
  }

  /** Filtering keeps the order of the rows: the line strings of a + b are
      those of a followed by those of b. */
  lemma {:induction false} LineStringsAppend(a: seq<Row>, b: seq<Row>)
    ensures LineStrings(a + b) == LineStrings(a) + LineStrings(b)
  {
    if a == [] {
      assert a + b == b;
    } else {
      assert (a + b)[0] == a[0];
      assert (a + b)[1..] == a[1..] + b;
      LineStringsAppend(a[1..], b);
    }
  }

  /** Drawing rows one after the other appends their paths in order. */
  lemma {:induction false} RowsPathsAppend(v: Viewport, a: seq<Row>, b: seq<Row>)
    requires HasPositiveSpans(v)
    ensures RowsPaths(v, a + b) == RowsPaths(v, a) + RowsPaths(v, b)
  {
    if a != [] {
      assert (a + b)[0] == a[0];
      assert (a + b)[1..] == a[1..] + b;
      RowsPathsAppend(v, a[1..], b);
      assert RowsPaths(v, a + b) == RowPaths(v, a[0]) + RowsPaths(v, a[1..] + b);
    } else {
      assert a + b == b;
    }
  }

  /** A row that is not a line string is skipped and the rows after it are
      still drawn. */
  lemma SkipDoesNotAbort(v: Viewport, before: seq<Row>, skipped: Row, after: seq<Row>)
    requires HasPositiveSpans(v) && !IsLineString(skipped)
    ensures RowsPaths(v, before + [skipped] + after) == RowsPaths(v, before) + RowsPaths(v, after)
  {
    RowsPathsAppend(v, before + [skipped], after);
    RowsPathsAppend(v, before, [skipped]);
  }

  /** The paths of a sequence of rows are those of its line strings, one
      each, in order, at the clamped width. */
  lemma {:induction false} RowsPathsAreLineStrings(v: Viewport, rows: seq<Row>)
    requires HasPositiveSpans(v)
    ensures var ps, ls := RowsPaths(v, rows), LineStrings(rows);
      |ps| == |ls| &&
      forall i :: 0 <= i < |ps| ==>
        ps[i] == Path(StrokeWidth(ls[i].width), Trace(v, ls[i].vertices))
  {
    if rows != [] {
      var rest := rows[1..];
      RowsPathsAreLineStrings(v, rest);
      var ps, ls := RowsPaths(v, rest), LineStrings(rest);
      if IsLineString(rows[0]) {
        var p := Path(StrokeWidth(rows[0].width), Trace(v, rows[0].vertices));
        assert RowsPaths(v, rows) == [p] + ps;
        assert LineStrings(rows) == [rows[0]] + ls;
      } else {
        assert RowsPaths(v, rows) == ps;
        assert LineStrings(rows) == ls;
      }
    }
  }

  /** The line width of the canvas after drawing `rows`: that of the last
      line string among them, or `w` when there is none. */
  function WidthAfter(w: real, rows: seq<Row>): real {
    if rows == [] then w
    else if IsLineString(rows[|rows| - 1]) then StrokeWidth(rows[|rows| - 1].width)
    else WidthAfter(w, rows[..|rows| - 1])
  }

  /** Drawing `b` after `a` leaves the width that drawing `b` alone leaves
      after `a`. */
  lemma {:induction false} WidthAfterAppend(w: real, a: seq<Row>, b: seq<Row>)
    ensures WidthAfter(w, a + b) == WidthAfter(WidthAfter(w, a), b)
    decreases |b|
  {
    if b == [] {
      assert a + b == a;
    } else {
      var front := b[..|b| - 1];
      assert (a + b)[..|a + b| - 1] == a + front;
      assert (a + b)[|a + b| - 1] == b[|b| - 1];
      WidthAfterAppend(w, a, front);
    }
  }

  /** The drawing context: the line width in force, the path under
      construction and the paths stroked so far. */
  class Canvas {
    var lineWidth: real
    var current: seq<PathCommand>
    var stroked: seq<Path>

    constructor ()
      ensures lineWidth == 1.0 && current == [] && stroked == []
    {
      lineWidth := 1.0;
      current, stroked := [], [];
    }

    method BeginPath()
      modifies this
      ensures current == []
      ensures lineWidth == old(lineWidth) && stroked == old(stroked)
    {
      current := [];
    }

    method SetLineWidth(w: real)
      modifies this
      ensures lineWidth == w
      ensures current == old(current) && stroked == old(stroked)
    {
      lineWidth := w;
    }

    method MoveTo(x: real, y: real)
      modifies this
      ensures current == old(current) + [PathCommand.MoveTo(x, y)]
      ensures lineWidth == old(lineWidth) && stroked == old(stroked)
    {
      current := current + [PathCommand.MoveTo(x, y)];
    }

    method AddLine(x: real, y: real)
      modifies this
      ensures current == old(current) + [LineTo(x, y)]
      ensures lineWidth == old(lineWidth) && stroked == old(stroked)
    {
      current := current + [LineTo(x, y)];
    }

    /** Strokes the current path at the current line width and clears it. */
    method StrokePath()
      modifies this
      ensures stroked == old(stroked) + [Path(old(lineWidth), old(current))]
      ensures current == [] && lineWidth == old(lineWidth)
    {
      stroked := stroked + [Path(lineWidth, current)];
      current := [];
    }
  }

  /** The body of the row loop: clamp the width, skip a geometry that is not
      a line string, otherwise build and stroke its path. */
  method DrawRow(v: Viewport, canvas: Canvas, row: Row)
    requires HasPositiveSpans(v)
    modifies canvas
    ensures canvas.stroked == old(canvas.stroked) + RowPaths(v, row)
    ensures canvas.lineWidth == if IsLineString(row) then StrokeWidth(row.width) else old(canvas.lineWidth)
    ensures canvas.current == if IsLineString(row) then [] else old(canvas.current)
  {
    var length := StrokeWidth(row.width);
    if row.typeId != LineStringTypeId {
      return;
    }
    var vs := row.vertices;
    canvas.BeginPath();
    canvas.SetLineWidth(length);
    for i := 0 to |vs|
      invariant canvas.current == Trace(v, vs[..i])
      invariant canvas.stroked == old(canvas.stroked) && canvas.lineWidth == length
    {
      var thisX := ProjectX(v, vs[i].0);
      var thisY := ProjectY(v, vs[i].1);
      assert vs[..i + 1][..i] == vs[..i];
      if i == 0 {
        canvas.MoveTo(thisX, thisY);
      } else {
        canvas.AddLine(thisX, thisY);
      }
    }
    assert vs[..|vs|] == vs;
    canvas.StrokePath();
  }

  /** A line string from the minimum corner of the extents to the maximum
      corner becomes one path from pixel (0, 0) to pixel
      (imageWidth * scale, imageHeight * scale): the x axis is not mirrored. */
  lemma DiagonalLine(v: Viewport, row: Row)
    requires HasPositiveSpans(v) && IsLineString(row)
    requires row.vertices == [(v.extents.minX, v.extents.minY), (v.extents.maxX, v.extents.maxY)]
    ensures RowPaths(v, row) ==
      [Path(StrokeWidth(row.width),
            [MoveTo(0.0, 0.0), LineTo(v.imageWidth as real * v.scale, ImageHeight(v) as real * v.scale)])]
  {
    var vs := row.vertices;
    CornersMapToImageCorners(v);
    assert vs[..1] == [vs[0]] && vs[..1][..0] == [];
    assert Trace(v, vs[..1]) == [MoveTo(0.0, 0.0)];
    var p := Project(v, vs[1]);
    assert p == (v.imageWidth as real * v.scale, ImageHeight(v) as real * v.scale);
    assert Trace(v, vs) == Trace(v, vs[..1]) + [LineTo(p.0, p.1)];
    assert Trace(v, vs) == [MoveTo(0.0, 0.0), LineTo(p.0, p.1)];
  }
}
