/** The triangulation as the dual extraction sees it, and the per-face
    circumcenter solver.

    The triangulation itself comes from an external library; the model takes
    its output as given: a sequence of inner faces, each carrying its index
    and its three adjacent directed edges, each edge carrying the index of
    its undirected edge and its two endpoint positions. */
module Mesh {
  import opened Geometry

  /** A directed edge as reported for a face: the index of the undirected
      edge it belongs to, and its start and end positions. */
  datatype DirectedEdge = DirectedEdge(id: nat, p: Point, q: Point)

  /** An inner face: its index and its three adjacent directed edges, in the
      order the triangulation lists them. */
  datatype Face = Face(index: nat, e0: DirectedEdge, e1: DirectedEdge, e2: DirectedEdge)

  function Edges(f: Face): seq<DirectedEdge> { [f.e0, f.e1, f.e2] }

  /** The assumption on the library's edge order that makes the two first
      bisectors meaningful: edge 0 ends where edge 1 starts, so the face's
      corners are e0.p, e0.q and e1.q. */
  predicate Chained(f: Face) { f.e0.q == f.e1.p }

  /** All three edges run around the triangle, each ending where the next
      one starts. */
  predicate Closed(f: Face) { Chained(f) && f.e1.q == f.e2.p && f.e2.q == f.e0.p }

  /** `f` lists the undirected edge `e` among its adjacent edges. */
  predicate Lists(f: Face, e: nat) { f.e0.id == e || f.e1.id == e || f.e2.id == e }

  /** The undirected edge indices the faces list. */
  function EdgeIds(faces: seq<Face>): set<nat> {
    set f, k | f in faces && 0 <= k < 3 :: Edges(f)[k].id
  }

  /** The face indices that occur in `faces`. */
  function FaceIndices(faces: seq<Face>): set<nat> {
    set f | f in faces :: f.index
  }

  /** The corners of a chained face. */
  function A(f: Face): Point { f.e0.p }
  function B(f: Face): Point { f.e0.q }
  function C(f: Face): Point { f.e1.q }

  /** One bisector triple per adjacent edge, in edge order. */
  function Bisectors(f: Face): seq<Line> {
    [Bisector(f.e0.p, f.e0.q), Bisector(f.e1.p, f.e1.q), Bisector(f.e2.p, f.e2.q)]
  }

  /** The center the program stores for a face: the intersection of the
      first two bisectors, non-finite when their determinant is zero. For a
      chained face that is exactly the collinear case, and otherwise the
      stored point is equidistant from the three corners. */
  function Circumcenter(f: Face): (c: Center)
    ensures c.Finite? <==> Det(Bisectors(f)[0], Bisectors(f)[1]) != 0.0
    ensures c.Finite? ==> OnLine(Bisectors(f)[0], c.at) && OnLine(Bisectors(f)[1], c.at)
    ensures Chained(f) ==> (c.NonFinite? <==> Collinear(A(f), B(f), C(f)))
    ensures Chained(f) && c.Finite? ==> Equidistant(c.at, A(f), B(f), C(f))
  {
    var bs := Bisectors(f);
    var c := Intersect(bs[0], bs[1]);
    if Chained(f) then
      BisectorDet(A(f), B(f), C(f));
      if c.Finite? then
        BisectorEquidistant(A(f), B(f), c.at);
        BisectorEquidistant(B(f), C(f), c.at);
        c
      else c
    else c
  }

  /** The stored center is the only point equidistant from the three corners. */
  lemma CircumcenterUnique(f: Face, X: Point)
    requires Chained(f)
    requires !Collinear(A(f), B(f), C(f))
    requires Equidistant(X, A(f), B(f), C(f))
    ensures Circumcenter(f) == Finite(X)
  {
    var bs := Bisectors(f);
    BisectorEquidistant(A(f), B(f), X);
    BisectorEquidistant(B(f), C(f), X);
    BisectorDet(A(f), B(f), C(f));
    SolveUnique(bs[0], bs[1], X);
  }

  /** The third bisector, which the program builds but never reads, passes
      through the stored center as well when the face is closed. */
  lemma ThirdBisectorAgrees(f: Face)
    requires Closed(f)
    requires Circumcenter(f).Finite?
    ensures OnLine(Bisectors(f)[2], Circumcenter(f).at)
  {
    var c := Circumcenter(f).at;
    BisectorEquidistant(C(f), A(f), c);
  }

  /** A degenerate face with pairwise distinct corners has no circumcenter at
      all, so reporting a non-finite center loses nothing. */
  lemma DegenerateHasNoCenter(f: Face, X: Point)
    requires Chained(f)
    requires Circumcenter(f).NonFinite?
    requires DistSq(B(f), A(f)) != 0.0 && DistSq(C(f), A(f)) != 0.0 && DistSq(C(f), B(f)) != 0.0
    ensures !Equidistant(X, A(f), B(f), C(f))
  {
    NoCenterWhenCollinear(A(f), B(f), C(f), X);
  }
}
