# Voronoi dual extraction, modelled in Dafny

The program builds a constrained Delaunay triangulation of random sites
inside a square, and then draws its Voronoi dual. The dual extraction is a
single pass over the inner faces of the triangulation, which fills two hash
maps:

- `face_pos` maps each face index to the face's circumcenter. The
  circumcenter is found by intersecting the perpendicular bisectors of the
  face's first two directed edges. Each bisector is an implicit line
  `a·x + b·y = c`, and the intersection uses Cramer's rule.
- `edge_faces` maps each undirected edge index to the indices of the faces
  that list that edge, in visiting order.

An emission pass then walks `edge_faces`:

- A list with more than one face gives a segment between the centers of its
  first two faces.
- A list with one face gives a "ray" from that face's center C to 100·C.

Finally, one marker is drawn per stored center.

This project models that extraction over exact reals and proves what it
computes.

Modules:

- `Geometry` (geometry.dfy) covers points, implicit lines, the bisector
  triple, and Cramer's rule. A zero determinant is modelled as a `NonFinite`
  center, which is what the f64 division produces.
- `Mesh` (mesh.dfy) describes the triangulation as the extraction sees it.
  A face has an index and three directed edges, and each edge has an
  undirected index and two endpoints. The module also holds the per-face
  circumcenter.
- `FaceLoop` (faceloop.dfy) is the face loop. Its results are the
  edge→faces table, the face→center table, and a reference definition of
  each edge's list.
- `Emission` (emission.dfy) is the segment/ray emitter and the markers. The
  hash-map iteration order is an explicit parameter: a sequence that lists
  every key exactly once.
- `Extraction` (extraction.dfy) is the whole pass, plus the square of
  corners (±500, 0), (0, ±500) as a worked scenario.

The triangulation library's edge order is not visible. Properties that need
the first two edges to share an endpoint therefore require it explicitly
(`Mesh.Chained`).

## Model

| member | source | states |
|---|---|---|
| Geometry.Bisector | src/main.rs:44-50 | The triple built from edge P→Q is a line through the midpoint of PQ, and its normal vanishes exactly when P = Q. |
| Geometry.BisectorEquidistant | src/main.rs:44-50 | A point satisfies the triple of P→Q if and only if it is as far from P as from Q. |
| Geometry.Solve | src/main.rs:56-60 | With a non-zero determinant, Cramer's solution lies on both lines. |
| Geometry.SolveUnique | src/main.rs:56-60 | With a non-zero determinant, every point on both lines is Cramer's solution. |
| Geometry.Intersect | src/main.rs:58-60 | The result is finite exactly when the determinant is non-zero, and a finite result lies on both lines. |
| Geometry.BisectorDet | src/main.rs:56-58 | The determinant of the bisectors of P→Q and Q→R equals the cross product of Q−P and R−P. So it is zero if and only if P, Q and R are collinear. |
| Geometry.NoCenterWhenCollinear | src/main.rs:58-60 | Three pairwise distinct collinear points have no equidistant point at all. |
| Mesh.Circumcenter | src/main.rs:42-61 | The stored center is finite exactly when the first two bisectors have a non-zero determinant. For a chained face it is non-finite if and only if the corners are collinear, and a finite center is equidistant from all three corners. |
| Mesh.CircumcenterUnique | src/main.rs:42-61 | For a chained, non-collinear face, any point equidistant from the three corners is the stored center. |
| Mesh.ThirdBisectorAgrees | src/main.rs:42-56 | The third bisector, which is built but never read, passes through the stored center of a closed face. |
| Mesh.DegenerateHasNoCenter | src/main.rs:56-61 | A face whose stored center is non-finite, and whose corners are pairwise distinct, has no equidistant point. Reporting no finite point therefore loses nothing. |
| FaceLoop.Push | src/main.rs:51-54 | A push creates the edge's list if it is missing and appends the face index to it. The keys gain that edge, and every other list is unchanged. |
| FaceLoop.FacesOn | src/main.rs:41-54 | Reference list of an edge: it is non-empty exactly when some face lists the edge, and its elements are exactly the indices of the faces that list it. |
| FaceLoop.FirstListingLeads | src/main.rs:51-54 | An edge's list starts with the index of the first face, in visiting order, that lists the edge. |
| FaceLoop.AddFace | src/main.rs:43-55 | One face's three pushes add the face's three edges to the keys, and append the face index to each list once per matching edge. |
| FaceLoop.BuildEdgeFaces | src/main.rs:40-55 | After the loop, the keys are exactly the listed edges and each list equals the reference list. No list is empty. |
| FaceLoop.BuildFacePos | src/main.rs:39-61 | After the loop, the keys are exactly the face indices. The entry under an index holds the center of the last face with that index, so later faces overwrite earlier ones. |
| FaceLoop.EdgeFacesTotal | src/main.rs:41-55 | The lengths of all lists sum to three times the number of faces. |
| FaceLoop.OneCenterPerFace | src/main.rs:61 | With distinct face indices, the face→center table has exactly one entry per face. |
| FaceLoop.Scan | src/main.rs:39-62 | Both tables after the face loop. Every list is non-empty, and every face it names has a stored center, so the emission's lookups cannot fail. |
| Emission.EnumerationSize | src/main.rs:65 | An iteration order over a key set has exactly as many entries as there are keys. |
| Emission.OnlyFirstTwoFaces | src/main.rs:66-69 | Faces after the second never change the drawn path. |
| Emission.RayIsRadial | src/main.rs:75-79 | The ray from a finite center C points along C itself: it lies on the line through the origin and C, and runs 99·C from its start. |
| Emission.EmitPaths | src/main.rs:65-86 | There is one path per key, in iteration order, and each is the path of that key's list. |
| Emission.CountsOverOrder | src/main.rs:65-86 | Over an order without repeats, the segments counted are the listed edges with more than one face, and the rays are those with one face. |
| Emission.PathCounts | src/main.rs:65-86 | There is one segment per interior edge and one ray per boundary edge, and segments plus rays equal the number of keys. |
| Emission.EnumerationsPermute | src/main.rs:65 | Any two iteration orders over the same keys are permutations of each other. |
| Emission.ImagesPermute | src/main.rs:65-94 | Pointwise images over two permutations of the same keys are permutations of each other. |
| Emission.PathsOrderFree | src/main.rs:65-86 | The multiset of emitted paths is the same for every iteration order. |
| Emission.MarkersOrderFree | src/main.rs:87-94 | The multiset of markers is the same for every iteration order. |
| Emission.MarkersShowCenters | src/main.rs:87-94 | There are as many markers as stored centers, and the markers show exactly the stored centers. |
| Extraction.Extract | src/main.rs:39-94 | One path per listed edge, and a path is a segment exactly when more than one face lists its edge. Segments plus rays equal the number of edges, and there is one marker per face index. |
| Extraction.MarkerPerFace | src/main.rs:87-94 | With distinct face indices, one marker is drawn per face. |
| Extraction.StoredCenterOfFace | src/main.rs:61 | With distinct face indices, the center stored under a face's index is that face's circumcenter. |
| Extraction.PathIsDual | src/main.rs:65-79 | Every path starts at the circumcenter of a face listing its edge, and a segment ends at the circumcenter of a face listing it too. |
| Extraction.PathStartsAtFirstFace | src/main.rs:65-79 | A path is drawn from the circumcenter of the first face, in visiting order, that lists its edge. A ray ends at that center scaled by 100. |
| Extraction.OrderFree | src/main.rs:39-94 | Whatever the order of both hash maps, the drawing holds the same paths and markers, counted with multiplicity. |
| Extraction.DiamondTables | src/main.rs:39-62 | For two faces sharing a diagonal, the diagonal's list holds both faces, each other edge's list holds its one face, and each face index holds its face's center. |
| Extraction.DiamondDrawing | src/main.rs:65-94 | For those tables, the emission gives four rays and one segment, which joins the two centers. |
| Extraction.DiamondExtract | src/main.rs:39-94 | The whole extraction over two faces sharing a diagonal gives four rays and one segment. |
| Extraction.UpperHalfCenter | src/main.rs:23-28 | The half of the boundary square above the diagonal has its circumcenter at the origin. |
| Extraction.LowerHalfCenter | src/main.rs:23-28 | So does the half below the diagonal. |
| Extraction.SquareScenario | src/main.rs:23-94 | The boundary square alone, split along one diagonal, has five edges and two faces. It gives four rays and one segment, and every path and marker sits at the origin. |

## Left out

- Random site generation (src/main.rs:16-22): randomness and the
  trigonometric functions are not modelled.
- The triangulation library (construction, insertion, constraints, and the
  enumeration of inner faces and adjacent edges): its code is not part of
  this model. The list of faces it hands out is an input, and its edge order
  is assumed through `Mesh.Chained` and `Mesh.Closed` where needed.
- SVG document construction, styling, the overlay of the triangulation's own
  edges and vertices (src/main.rs:96-114), and saving the file: these are
  output formatting and I/O.
- Floating point: all arithmetic is over exact reals, so rounding is not
  modelled. A zero determinant gives `NonFinite` rather than a particular
  infinity or NaN, and scaling or drawing a non-finite center stays
  non-finite.
- Hash-map iteration order: this is a parameter that enumerates the keys.
  Properties are stated for every such order, and as multisets where order
  matters.
- The program fills both tables in one loop. The model builds them as two
  folds over the same faces. The two never read each other, so the results
  are the same.
- Extraction.Extract: the requirement that every undirected edge has one or two incident
  faces is an input invariant that the code never checks. It is not
  modelled, and lists longer than two are handled as the code handles them
  (only the first two faces are used).
- Extraction.Extract: a zero determinant is not an error in the code. The non-finite
  center is stored, and it is drawn like any other center. The model follows
  the code, so it neither skips such faces nor aborts.
- Mesh.DegenerateHasNoCenter: the corners must be pairwise distinct, and
  distinctness is stated as a non-zero squared distance rather than as
  inequality of points.
- Geometry.NoCenterWhenCollinear: distinctness is stated as a non-zero squared
  distance, for the same reason.
- Extraction.SquareScenario: the program also inserts random interior sites before the
  boundary square. The scenario covers only the square and one diagonal,
  because the triangulation library is not modelled.
