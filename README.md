# Heat-map line renderer, modelled in Dafny

The program renders a heat map of line strings. It opens a cursor over a
database query and fetches the result in batches of 1000 rows. Each row
holds a geometry in well-known text and a stroke width. Each line string
is projected from geographic coordinates onto an image whose width is
given and whose height follows from the extents of the data. The path is
stroked onto a drawing context. Optionally, progress is printed as
percentages rounded to the nearest ten.

The model covers the core of `main.swift`:

- `progress.dfy` (module `Progress`) covers `progress` and its global
  `lastPercent`. It is a `Reporter` class with a `lastPercent` field and
  the `emitted` sequence of printed milestones. The percentage is
  computed exactly in integers, with Swift's `round` (halves away from
  zero).
- `projection.dfy` (module `Projection`) covers the extents, the spans,
  the aspect ratio, the truncated image height, the two pixel ratios and
  the per-vertex `thisX` / `thisY`. All of these are over mathematical
  reals. It also gives an inverse of the projection, used to state that
  a drawn path keeps its vertices.
- `render.dfy` (module `Render`) covers one row of the row loop: the
  stroke-width clamp, the line-string check, and the move-to / line-to
  path. These are issued against a `Canvas` class that records the line
  width in force, the path under construction and the stroked paths.
- `driver.dfy` (module `Driver`) covers the `while hasData` fetch loop.
  A `Cursor` class is over a sequence of batches. Each iteration counts,
  reports progress and draws. The model also shows how a query result is
  cut into batches.

Calls into libpq, GEOS and CoreGraphics become model state or
parameters. A fetched row is already decoded into a `Row`: its GEOS type
id, its vertices and its width. The cursor's answers are the `batches`
of a `Cursor`. The drawing context is a `Canvas`. Standard output of
`progress` is the `emitted` field.

Three details of `main.swift` shape the model:

- The x coordinate at `main.swift:278` is `(minX - lon) * -1 * ratio *
  scale`. The two negations cancel, so the x axis is not mirrored. A line
  from (0, 0) to (10, 10) in extents (0, 0)-(10, 10) at width 1000 ends
  at pixel (1000, 1000) (`Projection.ProjectXIsNotMirrored`,
  `Render.DiagonalLine`).
- `imageHeight` at `main.swift:161` is `Int(...)`, which truncates toward
  zero (`Projection.ImageHeight`, `Projection.ImageHeightKeepsAspect`).
- `main.swift:250-252` replaces a stroke width above 10 by 1.0
  (`Render.StrokeWidth`).

## Model

| member | source | states |
|---|---|---|
| Progress.IsRounded | main.swift:15 | the reference definition of Swift's `round`: r is the nearest integer to x, halves rounded away from zero (a definition; its uniqueness is `RoundedIsUnique`) |
| Progress.RoundQuotient | main.swift:15 | the rounded quotient of n / d for d > 0 is non-negative for n >= 0 and non-positive for n <= 0 (its value is pinned by `RoundQuotientIsRounded`) |
| Progress.RoundQuotientIsRounded | main.swift:15 | the integer quotient rounding equals Swift's `round` of n / d (nearest integer, halves away from zero), for either sign of n |
| Progress.RoundedIsUnique | main.swift:15 | `round` has at most one result for each value; with `RoundQuotientIsRounded`, the integer model is the only candidate |
| Progress.Percent | main.swift:15-16 | the percentage is at most 100 and a multiple of 10, is non-negative for a non-negative count, and is 100 exactly when current / total >= 0.95 |
| Progress.PercentIsRoundedTenths | main.swift:15-16 | below the cap, the percentage is 10 times the rounded value of 10 * current / total |
| Progress.PercentIsMonotone | main.swift:15-16 | a larger count never gives a smaller percentage |
| Progress.PercentAtTotal | main.swift:16 | a count at or past the total gives exactly 100, never more |
| Progress.Reporter.constructor | main.swift:12 | `lastPercent` starts at -1 with nothing printed |
| Progress.Reporter.Report | main.swift:13-21 | `lastPercent` becomes the larger of its old value and the percentage; the percentage is printed exactly when it is strictly larger; printed milestones stay strictly increasing multiples of 10 in [0, 100] ending at `lastPercent` |
| Projection.LineWidth | main.swift:158 | `lineWidth`: the span of the extents in longitude, maxX - minX (a definition) |
| Projection.LineHeight | main.swift:159 | `lineHeight`: the span of the extents in latitude, maxY - minY (a definition) |
| Projection.Truncate | main.swift:161 | `Int(x)` truncates toward zero: the result is the integer between x and 0 that is within 1 of x |
| Projection.AspectRatio | main.swift:160 | the aspect ratio is positive, and times the height span gives the width span |
| Projection.ImageHeight | main.swift:161 | the image height is non-negative for a non-negative image width and non-positive for a non-positive one (its value is pinned by `ImageHeightKeepsAspect`) |
| Projection.WidthRatio | main.swift:172 | the pixels per unit of longitude are positive for a positive image width and 0 for width 0 |
| Projection.HeightRatio | main.swift:173 | the pixels per unit of latitude are positive for a positive image height and 0 for height 0 |
| Projection.ImageHeightKeepsAspect | main.swift:158-161 | the image height h is non-negative and h <= imageWidth * lineHeight / lineWidth < h + 1 |
| Projection.SquareExtentsKeepWidth | main.swift:158-161 | square extents give an image height equal to the image width |
| Projection.ProjectX | main.swift:278 | the minimum longitude maps to column 0 |
| Projection.ProjectY | main.swift:279 | the minimum latitude maps to row 0 |
| Projection.Project | main.swift:278-279 | the minimum corner of the extents maps to pixel (0, 0) |
| Projection.ProjectXIsNotMirrored | main.swift:278 | x = (lon - minX) * imageWidth / lineWidth * scale: the two negations cancel |
| Projection.CornersMapToImageCorners | main.swift:278-279 | the minimum corner maps to (0, 0) and the maximum corner to (imageWidth * scale, imageHeight * scale) |
| Projection.ProjectXIsStrictlyMonotone | main.swift:278 | with positive spans, width and scale, a larger longitude gives a strictly larger x |
| Projection.ProjectYIsStrictlyMonotone | main.swift:279 | with positive spans, image height and scale, a larger latitude gives a strictly larger y |
| Projection.XInverse | main.swift:278 | on an invertible viewport, `UnprojectX` and `ProjectX` undo each other in both orders |
| Projection.YInverse | main.swift:279 | on an invertible viewport, `UnprojectY` and `ProjectY` undo each other in both orders |
| Projection.UnprojectProject | main.swift:278-279 | unprojecting a projected point gives the geographic point back |
| Projection.ProjectUnproject | main.swift:278-279 | projecting an unprojected pixel gives the pixel back |
| Render.StrokeWidth | main.swift:249-252 | a width above 10 becomes 1.0, any other passes through unchanged, so the stroke width never exceeds 10 |
| Render.IsLineString | main.swift:257 | a row is drawn exactly when its GEOS type id is that of a line string (a predicate; used by `LineStrings`, `RowPaths` and `DrawRow`) |
| Render.Trace | main.swift:271-286 | the commands for n vertices are n in number, the first of them a move-to |
| Render.TraceShape | main.swift:271-286 | a line string of n vertices gives n commands: a move-to the projection of vertex 0, then line-tos to the projections of vertices 1 .. n-1 in order |
| Render.TraceKeepsVertices | main.swift:271-286 | unprojecting the points of the traced path gives back exactly the vertices, in order and number |
| Render.RowPaths | main.swift:245-292 | a line string adds exactly one path and any other row none |
| Render.RowsPaths | main.swift:245-292 | the paths of a run of rows, row after row (its count and contents are stated by `RowsPathsAreLineStrings`, its order by `RowsPathsAppend`) |
| Render.DrawRow | main.swift:247-291 | drawing a row appends exactly the paths `RowPaths` gives (one path at the clamped width for a line string, none otherwise) and leaves the line width and current path as stated |
| Render.Canvas.constructor | main.swift:188-191 | the context starts with line width 1.0, no current path and nothing stroked |
| Render.Canvas.BeginPath | main.swift:265 | the current path is cleared; nothing else changes |
| Render.Canvas.SetLineWidth | main.swift:267 | the line width is set; nothing else changes |
| Render.Canvas.MoveTo | main.swift:282 | a move-to is appended to the current path; nothing else changes |
| Render.Canvas.AddLine | main.swift:284 | a line-to is appended to the current path; nothing else changes |
| Render.Canvas.StrokePath | main.swift:288 | the current path is stroked at the line width in force and cleared |
| Render.LineStrings | main.swift:256-260 | a row is kept exactly when it is one of the input rows and a line string |
| Render.LineStringsAppend | main.swift:256-260 | filtering keeps the order: the line strings of a + b are those of a followed by those of b |
| Render.RowsPathsAreLineStrings | main.swift:245-292 | the paths of a run of rows are those of its line strings, one each, in order, each at the clamped width with its traced path |
| Render.SkipDoesNotAbort | main.swift:256-260 | a row that is not a line string adds nothing, and the rows after it are still drawn |
| Render.RowsPathsAppend | main.swift:245-292 | drawing two runs of rows one after the other appends their paths in order |
| Render.WidthAfter | main.swift:249-267 | the line width the context is left with after a run of rows: the clamped width of the last line string, or the starting width when there is none (a definition; `DrawBatch` and `DrawFetched` are proved against it) |
| Render.WidthAfterAppend | main.swift:249-267 | the line width left after two runs of rows is that left by the second run, starting from the width the first left |
| Render.DiagonalLine | main.swift:271-288 | a line string from the minimum to the maximum corner becomes one path from (0, 0) to (imageWidth * scale, imageHeight * scale) |
| Driver.FirstEmpty | main.swift:223-234 | the index of the first empty batch: every earlier batch is non-empty and this one is empty or past the end |
| Driver.Cursor.constructor | main.swift:167 | a freshly declared cursor holds the batches of the query and has answered no fetch |
| Driver.Cursor.FetchForward | main.swift:225 | each fetch answers the next batch, or an empty one past the end |
| Driver.LastAfter | main.swift:240-243 | `lastPercent` after the loop's n calls `progress(1000 * i, totalRows)`, i = 1 .. n, from a start value: each call keeps the larger of it and the percentage (a definition; `LastAfterIsLastReport` gives its closed form) |
| Driver.Milestones | main.swift:240-243 | the percentages those n calls print, in order: call i prints its percentage exactly when it exceeds `lastPercent` before it (a definition; `MilestonesAreOrdered` and `MilestonesEndAtHundred` state its properties) |
| Driver.LastAfterIsLastReport | main.swift:240-243 | after n >= 1 reports, `lastPercent` is the larger of its start value and the percentage at count 1000 * n |
| Driver.MilestonesAreOrdered | main.swift:240-243 | the milestones printed by the loop are strictly increasing multiples of 10 in [0, 100], all above the start value, the last of them being `lastPercent` afterwards |
| Driver.MilestonesEndAtHundred | main.swift:240-243 | once the count reaches 95% of the total, the last milestone printed is 100 |
| Driver.ReportFetch | main.swift:240-243 | reporting count = 1000 * n after the reports for 1000 .. 1000 * (n - 1) prints exactly the milestones of n reports and leaves `lastPercent` as after n reports |
| Driver.DrawBatch | main.swift:245-292 | drawing a batch appends the paths of its rows, in row order |
| Driver.RenderAll | main.swift:217-245 | the loop stops after the first empty batch with `count` = 1000 * (fetches) and one fetch more than the non-empty batches; it has drawn exactly the rows of the batches before the empty one, in batch and row order; the progress output is exactly the milestones of reports at 1000, 2000, ... |
| Driver.DrawFetched | main.swift:245-292 | drawing a fetched batch after the rows drawn so far leaves exactly the paths and line width of drawing all of those rows in order; an empty batch changes nothing |
| Driver.Chunks | main.swift:225 | a query result is cut into no batches exactly when it is empty, and every batch holds 1 to n rows |
| Driver.ChunksCoverRows | main.swift:225 | a query result cut into batches has no empty batch before the end, and the batches hold every row of it in order |
| Driver.ChunksConcatenate | main.swift:225 | the batches, joined in order, give back the query result |
| Driver.ChunksCount | main.swift:225 | the number of batches is the number of rows divided by 1000, rounded up |
| Driver.ProgressEndsAtHundred | main.swift:240-243 | with the total counted from the same query, the progress output of the whole loop ends with 100 |

## Left out

- Database access is not modelled: the connection, `BEGIN`, the SQL text of the cursor declaration, the error paths that print and `exit(0)`, and the `count(*)` query for the total. The cursor is a given sequence of batches.
- GEOS is not modelled: WKT parsing, the coordinate sequence reads and `GEOSGeom_destroy_r`. A row is already decoded into a type id and vertices. Text that does not parse is not modelled: `main.swift:254-257` passes the reader's result to `GEOSGeomTypeId_r` without checking it.
- Parsing the width column is not modelled. `Float(...)!` crashes the program on text that is not a number; the model takes the width as a number.
- Command-line parsing and `getExtents` are not modelled; the extents and the image width are inputs.
- CoreGraphics output is not modelled: colours, the background fill, line caps and joins, the shadow (its blur at `main.swift:269` is the constant 30, whatever the stroke width), PNG/PDF encoding, and writing the file.
- Printed log lines other than the progress milestones are not modelled.
- IEEE double arithmetic, rounding error and infinities are not modelled. Everything is computed over exact reals (`real`), and `Float`-to-`CGFloat` conversion is the identity.
- Progress.Percent: requires total > 0. With total 0, Swift's `Int(10 * round(inf))` traps, and a negative total from the command line is not modelled.
- Driver.RenderAll: requires printProgress ==> totalRows > 0, for the same reason.
- Projection.ImageHeight: requires positive spans, as do the other projection functions. With `lineWidth` 0 the aspect ratio is 0 and `Int(Double(imageWidth) / 0)` at `main.swift:161` traps. With `lineHeight` 0 the image height is 0 and the height ratio at `main.swift:173` is 0 / 0. Neither case is modelled.
- 64-bit integer overflow of `count` and of `Int(...)` is not modelled; integers are unbounded.
- `scale` is the constant 1.0 in the script; the model takes it as a parameter of the viewport.
