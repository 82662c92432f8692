# FractalSphere core, modelled in Dafny

FractalSphere draws a rotating geodesic sphere into a 600 x 600 window, in
software. This project models the deterministic core of `main.go` and proves
properties of it:

- **Geodesic mesh construction** (module `Geometry`). The mesh starts as the
  12-vertex, 20-face icosahedron. Each round replaces every face by four
  faces and appends three fresh midpoint vertices per face; midpoints that
  neighbouring faces share are never merged. `CreateSphere` and its inner
  loop `SubdivideRound` are imperative methods over growing sequences. They
  are proved equal to the recursive specification `Sphere`. Face count,
  vertex count, index validity and "only appends" are proved about `Sphere`.
- **Mesh cache** (module `MeshCache`). This is the memo table of built
  spheres, keyed by round count. It is a class holding a `map<int, Mesh>`.
- **Level of detail** (module `Lod`). This is the zoom-to-round-count table.
- **Rasterizer**:
  - `Canvas` holds the 600 x 600 image as an `array2`, with a pixel write
    that ignores off-image pixels.
  - `Line` is the sampled line walk.
  - `Scanline` is the triangle fill with its half-open crossing test, plus
    the white outline drawn on top.
- **Colour blend** (`Colour`) and **input helpers** (`Input`). `Input`
  covers the clamped wheel zoom and the cursor-over-sphere disc test.
- `Numeric` holds the real-number helpers. In particular, `Trunc` is the
  float-to-int conversion `int(x)`, which truncates toward zero.

Floating-point values are modelled as exact `real`s. Three operations need a
square root: the golden ratio `phi`, the projection `normalize`, and the
per-vertex wobble in `animateVertices`. The rotation in `drawSphere` needs
sine and cosine. None of these can be written exactly. `phi` and
`normalize` are passed in as a `Numerics` value, so the geometry proofs are
about indices and lengths, and hold whatever those two compute.

## Model

| member | source | states |
|---|---|---|
| Numeric.Trunc | main.go:197 | `int(x)` rounds toward zero: for x ≥ 0 it is the largest integer ≤ x, for x < 0 the smallest integer ≥ x |
| Numeric.TruncMonotone | main.go:197 | truncation never reverses the order of two values, so the fill's x range is non-empty whenever its crossings are ordered |
| Numeric.TruncStep | main.go:356-359 | values at most 1 apart truncate to integers at most 1 apart |
| Numeric.InterpolateBetween | main.go:189 | moving from one value toward another by a fraction in [0, 1] stays between the two |
| Geometry.Midpoint | main.go:297-303 | the midpoint is equally far from both end points on every axis |
| Geometry.MidpointSymmetric | main.go:297-303 | the midpoint does not depend on the order of its two end points |
| Geometry.IcosahedronWellFormed | main.go:253-264 | the starting mesh has 12 vertices and 20 faces, each face with three indices below 12 |
| Geometry.RoundMidpointsLength | main.go:269-278 | a round appends exactly three vertices per face |
| Geometry.RoundFacesLength | main.go:280-285 | a round emits exactly four faces per face |
| Geometry.RoundFacesValid | main.go:273-285 | every emitted face has three indices, all below the vertex count after the round |
| Geometry.Subdivide | main.go:266-288 | one round multiplies the faces by four and adds three vertices per face |
| Geometry.SubdivideKeepsVertices | main.go:273-278 | a round keeps the old vertices, unchanged, as a prefix of the new ones |
| Geometry.SubdivideWellFormed | main.go:266-288 | a round maps a mesh with valid indices to a mesh with valid indices |
| Geometry.SphereWellFormed | main.go:259-288 | after any number of rounds every face has three indices, each naming an existing vertex |
| Geometry.Sphere | main.go:254-287 | after every number of rounds there are exactly eight more faces than vertices |
| Geometry.SphereBase | main.go:254-264 | with no rounds the result is the icosahedron: 12 vertices, 20 valid faces |
| Geometry.SphereFaceCount | main.go:259-287 | after n rounds there are exactly 20·4ⁿ faces |
| Geometry.SphereVertexCount | main.go:254-278 | after n rounds there are exactly 12 + 20·(4ⁿ − 1) vertices |
| Geometry.SpherePrefix | main.go:273-278 | the vertices of an earlier round are an unchanged prefix of those of every later round |
| Geometry.RoundStep | main.go:268-285 | handling face k appends that face's three edge midpoints and its four children to what the earlier faces produced |
| Geometry.SubdivideRound | main.go:267-287 | the face loop of one round produces exactly the round's specification: the midpoints of edges 0-1, 1-2, 2-0 of each face in order, and the children [a, m01, m20], [b, m12, m01], [c, m20, m12], [m01, m12, m20] |
| Geometry.CreateSphere | main.go:252-290 | the construction equals the specification after max(n, 0) rounds, with 20·4ⁿ faces, 12 + 20·(4ⁿ − 1) vertices and every index in bounds |
| MeshCache.SphereCache.constructor | main.go:29 | the cache starts empty |
| MeshCache.SphereCache.GetSphereData | main.go:211-229 | returns the sphere for the key and leaves it stored. On a hit nothing changes and nothing is built. On a miss exactly one sphere is built and stored under the key, and every other key is untouched |
| Lod.GetLOD | main.go:235-246 | the result is in 1..4: 1 exactly below 100 (both bands below 100), 2 on [100, 200), 3 on [200, 400), 4 from 400 |
| Lod.GetLODMonotone | main.go:235-246 | a larger zoom never gives fewer rounds |
| Lod.GetLODDoubling | main.go:235-246 | between 100 and 400 each doubling of the zoom adds one round |
| Lod.LodMeshBound | main.go:127-128 | any zoom asks for a mesh of 80 to 5120 faces and at most 5112 vertices |
| Canvas.SetPixel | main.go:198-199 | writes the one pixel named if it lies on the image and changes nothing else |
| Line.Steps | main.go:347-349 | the step count is the larger of the two axis distances |
| Line.LinePoints | main.go:346-361 | one pixel when the step count is 0, otherwise int(steps) + 1 samples; the first is (int(x1), int(y1)) |
| Line.DrawLine | main.go:346-361 | paints exactly the on-image pixels of `LinePoints` in the given colour; every other pixel is unchanged |
| Line.IncrementBound | main.go:354-355 | each per-step increment lies in [−1, 1] |
| Line.WalkNext | main.go:356-358 | each sample is one increment past the previous one |
| Line.WalkArrives | main.go:354-358 | a whole number of increments reaches the end coordinate exactly |
| Line.LineReachesEnd | main.go:349-360 | when the step count is whole, the last sample is the truncated end point |
| Line.LineConnected | main.go:356-360 | consecutive samples differ by at most one pixel on each axis, so the line has no gaps |
| Line.HorizontalLineExample | main.go:346-361 | the line from (0, 0) to (3, 0) plots (0, 0), (1, 0), (2, 0), (3, 0) in that order |
| Line.LineStopsShortExample | main.go:349-360 | from (0.5, 0) to (3, 0) the walk plots (0, 0), (1, 0), (2, 0) and misses the end pixel (3, 0) |
| Scanline.Crosses | main.go:187-188 | the half-open test: a row cuts an edge exactly when one end is on or above the row and the other is strictly below it |
| Scanline.CrossX | main.go:189 | the cut point (x, y) lies on the straight line through the edge's two ends |
| Scanline.Crossings | main.go:185-191 | a row has at most one cut point per edge examined |
| Scanline.ClampedBox | main.go:165-181 | the box lies inside the image, and it covers exactly the columns and rows that are both on the image and within the truncated extent of the three points |
| Scanline.Intersections | main.go:184-192 | the cut-point loop collects exactly the cut points of every edge, in edge order, with the last edge closing the polygon |
| Scanline.Fill | main.go:183-202 | paints exactly the pixels `FillCovers` names: rows in the clamped box, only rows cut exactly twice, x between the truncated sorted cut points, and 0 ≤ x < 600. Every other pixel is unchanged |
| Scanline.DrawOptimizedTriangle | main.go:164-209 | each pixel ends white if it is on one of the three outline lines, else the fill colour if the fill covers it, else its old colour |
| Scanline.CrossingsParity | main.go:185-191 | after k edges the cut count is odd exactly when point k lies on the other side of the row from point 0 |
| Scanline.CrossingsEven | main.go:185-191 | every row cuts a closed polygon an even number of times |
| Scanline.TriangleCrossings | main.go:185-193 | a row cuts a triangle 0 or 2 times; it cuts it twice exactly when some edge is cut |
| Scanline.CrossXBetween | main.go:187-189 | a cut point lies between the x coordinates of its edge's ends |
| Scanline.CrossingsInXRange | main.go:165-191 | every cut point of a triangle lies within its horizontal extent |
| Scanline.FillInsideBox | main.go:165-201 | the fill of a triangle never leaves its clamped drawing box, including the horizontal bounds the loop never reads |
| Scanline.ExampleTriangleFill | main.go:183-202 | for the triangle (0, 0), (4, 0), (0, 4) the fill covers exactly 0 ≤ y ≤ 3, 0 ≤ x ≤ 4 − y |
| Colour.LerpChannel | main.go:325-327 | a blended channel lies between the two inputs, and equals the first at t = 0 and the second at t = 1 |
| Colour.LerpColor | main.go:323-330 | the blend is opaque (alpha 255), is c1 at t = 0 and c2 at t = 1, and each channel lies between the inputs |
| Colour.LerpChannelMonotone | main.go:325-327 | raising t moves a channel toward the second colour and never back |
| Colour.FaceTintBounds | main.go:157-158 | every face tint lies channel by channel between royal blue and medium purple, fully opaque |
| Input.ScrollScale | main.go:62-67 | without vertical scroll the zoom is unchanged. With scroll it becomes zoom + 10·scroll, raised to 10 if that falls below 10 |
| Input.ScaleStaysAtLeastMin | main.go:62-67 | from any zoom of at least 10, no sequence of wheel events takes the zoom below 10 |
| Input.InitialScaleStaysAtLeastMin | main.go:62-67 | from the start-up zoom of 50, no sequence of wheel events takes the zoom below 10 |
| Input.ZoomInKeepsDetail | main.go:63-67 | scrolling up never lowers the zoom or the level of detail |
| Input.IsCursorOverSphere | main.go:339-344 | a cursor over the sphere is within int(scale) of (300, 300) on each axis, and a cursor whose axis distances from (300, 300) sum to at most int(scale) is over it |
| Input.DiscAxisBound | main.go:341-343 | a point of the integer disc of radius r is within \|r\| of the centre on each axis |
| Input.DiamondInDisc | main.go:341-343 | a point whose axis distances sum to at most \|r\| is in the disc |
| Input.CursorOverSphereMonotone | main.go:339-344 | for non-negative zooms, zooming in never takes the sphere out from under the cursor |

Notes on the model:

- The source computes and clamps `minX` and `maxX` but never reads them
  (main.go:165-177). `ClampedBox` computes all four bounds as the source
  does. `Fill` uses only the rows. `FillInsideBox` shows the unused
  horizontal bounds could not have changed the picture for a triangle.
- For the triangle (0, 0), (4, 0), (0, 4), row 4 only touches the corner
  (0, 4). The half-open crossing test gives it no cut points, so the fill
  leaves it alone; only the outline paints that pixel. The fill therefore
  covers the points with x + y ≤ 4 on rows 0 to 3 only. The model follows
  the code.
- The image write (`Set` of the drawing library) ignores pixels outside the
  image. `SetPixel` models exactly that.
- `DrawOptimizedTriangle` requires at least three points, because the source
  indexes `points[0]` to `points[2]` unconditionally. The crossing loop runs
  over all the points, as in the source; the box and outline use the first
  three.
- Go's cache holds an `interface{}` value and falls back to rebuilding when
  the type assertion fails. With a typed `map<int, Mesh>` that path cannot
  occur, so it is not modelled.

## Left out

- Window and host glue: `main`, `NewGame`, `Layout`, `Draw`, clearing and
  compositing the offscreen image, window flags, and moving the window.
  These are calls into the drawing library.
- Input polling and drag-to-move in `Update`: keys, mouse buttons, cursor
  position and window position. The wheel reading is a parameter of
  `ScrollScale`, and the zoom is a parameter of `IsCursorOverSphere`.
- `Update`'s rotation step (`angle += 0.01 * rotationDir` while not
  dragging). It changes the angle the sphere is drawn at, and the rotation
  that uses that angle needs sine and cosine, which the model leaves out
  (see below).
- The redraw bookkeeping (`needsRedraw`, `lastScale`, `lastAngle`). It only
  decides when a redraw happens.
- The rotation and projection in `drawSphere`, `animateVertices`, and the
  per-face colour phase. These need sine, cosine and square root. The
  colour phase t is a parameter of `LerpColor`, and `LerpColor` requires
  0 ≤ t ≤ 1, the range of (sin + 1) / 2.
- The values of `normalize` and of the golden ratio. They are passed in as
  `Numerics`; no property depends on them.
- Concurrency of `sync.Map`: the frame loop is single-threaded, so the cache
  is a plain sequential map.
- `isPointInTriangle`: it is never called.
- Float64 rounding, NaN and infinities, and overflow of the int and uint8
  conversions: reals are exact and integers unbounded.
- Colour.LerpChannel: the source's `uint8` conversion of an out-of-range
  value is not modelled, because `LerpChannel` requires t in [0, 1], where
  the blend stays in 0..255.
- Geometry.CreateSphere: the coordinates are only as exact as the injected
  `normalize`; no geometric property of the vertex positions (such as unit
  length) is claimed.
