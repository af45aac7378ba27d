/** The whole dual extraction: the face loop followed by the emission pass,
    and the properties of the drawing it produces. */
module Extraction {
  import opened Geometry
  import opened Mesh
  import opened FaceLoop
  import opened Emission

  /** What the pass draws: the dual paths, then one marker per stored center. */
  datatype Drawing = Drawing(paths: seq<Path>, markers: seq<Center>)

  /** Dual extraction over the inner faces. `edgeOrder` and `centerOrder`
      stand for the unspecified iteration orders of the two hash maps. One
      path is drawn per listed undirected edge, a segment exactly when more
      than one face lists the edge, and one marker per face index. */
  function Extract(faces: seq<Face>, edgeOrder: seq<nat>, centerOrder: seq<nat>): (d: Drawing)
    requires Enumerates(edgeOrder, EdgeIds(faces))
    requires Enumerates(centerOrder, FaceIndices(faces))
    ensures |d.paths| == |edgeOrder| == |EdgeIds(faces)|
    ensures forall i :: 0 <= i < |edgeOrder| ==>
      (d.paths[i].Segment? <==> |FacesOn(faces, edgeOrder[i])| > 1)
    ensures CountSegments(d.paths) + CountRays(d.paths) == |EdgeIds(faces)|
    ensures |d.markers| == |FaceIndices(faces)|
  {
    var t := Scan(faces);
    var paths := EmitPaths(t.edgeFaces, t.facePos, edgeOrder);
    var markers := EmitMarkers(t.facePos, centerOrder);
    ExtractShape(faces, edgeOrder, centerOrder);
    Drawing(paths, markers)
  }

  lemma ExtractShape(faces: seq<Face>, edgeOrder: seq<nat>, centerOrder: seq<nat>)
    requires Enumerates(edgeOrder, EdgeIds(faces))
    requires Enumerates(centerOrder, FaceIndices(faces))
    ensures var t := Scan(faces);
      var paths := EmitPaths(t.edgeFaces, t.facePos, edgeOrder);
      && |paths| == |EdgeIds(faces)|
      && (forall i :: 0 <= i < |paths| ==> (paths[i].Segment? <==> |FacesOn(faces, edgeOrder[i])| > 1))
      && CountSegments(paths) + CountRays(paths) == |EdgeIds(faces)|
      && |EmitMarkers(t.facePos, centerOrder)| == |FaceIndices(faces)|
  {
    var t := Scan(faces);
    var paths := EmitPaths(t.edgeFaces, t.facePos, edgeOrder);
    EnumerationSize(edgeOrder, EdgeIds(faces));
    EnumerationSize(centerOrder, FaceIndices(faces));
    SegmentsPlusRays(paths);
    forall i | 0 <= i < |paths|
      ensures paths[i].Segment? <==> |FacesOn(faces, edgeOrder[i])| > 1
    {
      assert paths[i] == EdgePath(t.edgeFaces[edgeOrder[i]], t.facePos);
      assert t.edgeFaces[edgeOrder[i]] == FacesOn(faces, edgeOrder[i]);
    }
  }

  /** With distinct face indices, one marker is drawn per face. */
  lemma MarkerPerFace(faces: seq<Face>, edgeOrder: seq<nat>, centerOrder: seq<nat>)
    requires Enumerates(edgeOrder, EdgeIds(faces))
    requires Enumerates(centerOrder, FaceIndices(faces))
    requires DistinctIndices(faces)
    ensures |Extract(faces, edgeOrder, centerOrder).markers| == |faces|
  {
    OneCenterPerFace(faces);
  }

  /** With distinct face indices, the center stored under a face's index is
      that face's circumcenter. */
  lemma StoredCenterOfFace(faces: seq<Face>, j: nat)
    requires DistinctIndices(faces)
    requires j < |faces|
    ensures Scan(faces).facePos[faces[j].index] == Circumcenter(faces[j])
  {
    assert LastWithIndex(faces, j);
  }

  /** Each drawn path starts at the circumcenter of a face adjacent to its
      edge, and a segment ends at the circumcenter of a face adjacent to it
      too: the path is the dual of its edge. The two faces may coincide, when
      one face lists the same edge index twice; the code draws that segment
      from the face's center to itself. */
  lemma PathIsDual(faces: seq<Face>, edgeOrder: seq<nat>, centerOrder: seq<nat>, i: nat)
    requires Enumerates(edgeOrder, EdgeIds(faces))
    requires Enumerates(centerOrder, FaceIndices(faces))
    requires DistinctIndices(faces)
    requires i < |edgeOrder|
    ensures var p := Extract(faces, edgeOrder, centerOrder).paths[i];
      var e := edgeOrder[i];
      && (exists f :: f in faces && Lists(f, e) && p.from == Circumcenter(f))
      && (p.Segment? ==> exists g :: g in faces && Lists(g, e) && p.to == Circumcenter(g))
  {
    var t := Scan(faces);
    var e := edgeOrder[i];
    var l := t.edgeFaces[e];
    var p := Extract(faces, edgeOrder, centerOrder).paths[i];
    assert p == EdgePath(l, t.facePos);
    assert l[0] in FacesOn(faces, e);
    var f :| f in faces && Lists(f, e) && f.index == l[0];
    var jf :| 0 <= jf < |faces| && faces[jf] == f;
    StoredCenterOfFace(faces, jf);
    if p.Segment? {
      assert l[1] in FacesOn(faces, e);
      var g :| g in faces && Lists(g, e) && g.index == l[1];
      var jg :| 0 <= jg < |faces| && faces[jg] == g;
      StoredCenterOfFace(faces, jg);
    }
  }

  /** Which face a path is drawn from: the first face, in visiting order,
      that lists the path's edge. A ray runs from that face's center to the
      center scaled by `RayScale`. */
  lemma PathStartsAtFirstFace(faces: seq<Face>, edgeOrder: seq<nat>, centerOrder: seq<nat>, i: nat, j: nat)
    requires Enumerates(edgeOrder, EdgeIds(faces))
    requires Enumerates(centerOrder, FaceIndices(faces))
    requires DistinctIndices(faces)
    requires i < |edgeOrder|
    requires FirstToList(faces, edgeOrder[i], j)
    ensures var p := Extract(faces, edgeOrder, centerOrder).paths[i];
      && p.from == Circumcenter(faces[j])
      && (p.Ray? ==> p.to == ScaleCenter(Circumcenter(faces[j]), RayScale))
  {
    var t := Scan(faces);
    var e := edgeOrder[i];
    FirstListingLeads(faces, e, j);
    assert t.edgeFaces[e] == FacesOn(faces, e);
    assert Extract(faces, edgeOrder, centerOrder).paths[i] == EdgePath(t.edgeFaces[e], t.facePos);
    StoredCenterOfFace(faces, j);
  }

  /** Idempotence up to iteration order: whatever orders the two hash maps
      are walked in, the drawing holds the same paths and the same markers,
      counted with multiplicity. */
  lemma OrderFree(faces: seq<Face>, e1: seq<nat>, c1: seq<nat>, e2: seq<nat>, c2: seq<nat>)
    requires Enumerates(e1, EdgeIds(faces)) && Enumerates(c1, FaceIndices(faces))
    requires Enumerates(e2, EdgeIds(faces)) && Enumerates(c2, FaceIndices(faces))
    ensures multiset(Extract(faces, e1, c1).paths) == multiset(Extract(faces, e2, c2).paths)
    ensures multiset(Extract(faces, e1, c1).markers) == multiset(Extract(faces, e2, c2).markers)
  {
    var t := Scan(faces);
    PathsOrderFree(t.edgeFaces, t.facePos, e1, e2);
    MarkersOrderFree(t.facePos, c1, c2);
  }

  /** Two faces over the corners v0..v3 split along the diagonal v0–v2:
      boundary edges 0 (v0v1), 1 (v1v2), 2 (v2v3), 3 (v3v0) and the diagonal
      4, each face listing its edges counter-clockwise from v0. */
  function Diamond(v0: Point, v1: Point, v2: Point, v3: Point): seq<Face> {
    [ Face(0, DirectedEdge(4, v0, v2), DirectedEdge(1, v2, v1), DirectedEdge(0, v1, v0)),
      Face(1, DirectedEdge(3, v0, v3), DirectedEdge(2, v3, v2), DirectedEdge(4, v2, v0)) ]
  }

  lemma DiamondIds(v0: Point, v1: Point, v2: Point, v3: Point)
    ensures EdgeIds(Diamond(v0, v1, v2, v3)) == {0, 1, 2, 3, 4}
    ensures FaceIndices(Diamond(v0, v1, v2, v3)) == {0, 1}
  {
    var faces := Diamond(v0, v1, v2, v3);
    assert Edges(faces[0])[0].id == 4 && Edges(faces[0])[1].id == 1 && Edges(faces[0])[2].id == 0;
    assert Edges(faces[1])[0].id == 3 && Edges(faces[1])[1].id == 2 && Edges(faces[1])[2].id == 4;
    assert faces[0] in faces && faces[1] in faces;
  }

  lemma DiamondLists(v0: Point, v1: Point, v2: Point, v3: Point, e: nat)
    ensures FacesOn(Diamond(v0, v1, v2, v3), e) ==
      if e == 4 then [0, 1] else if e == 0 || e == 1 then [0] else if e == 2 || e == 3 then [1] else []
  {
    var faces := Diamond(v0, v1, v2, v3);
    assert faces[..1][..0] == [];
    assert FacesOn(faces[..1], e) == Listing(faces[0], e);
    assert FacesOn(faces, e) == Listing(faces[0], e) + Listing(faces[1], e);
  }

  /** Both tables after the face loop over the two faces: the diagonal is
      listed by both faces, every other edge by one, and each face index holds
      its own face's center. */
  lemma DiamondTables(v0: Point, v1: Point, v2: Point, v3: Point)
    ensures var faces := Diamond(v0, v1, v2, v3); var pos := Scan(faces).facePos;
      pos.Keys == {0, 1} && pos[0] == Circumcenter(faces[0]) && pos[1] == Circumcenter(faces[1])
    ensures var m := Scan(Diamond(v0, v1, v2, v3)).edgeFaces;
      && m.Keys == {0, 1, 2, 3, 4}
      && m[0] == [0] && m[1] == [0] && m[2] == [1] && m[3] == [1] && m[4] == [0, 1]
  {
    var faces := Diamond(v0, v1, v2, v3);
    DiamondIds(v0, v1, v2, v3);
    assert LastWithIndex(faces, 0) && LastWithIndex(faces, 1);
    DiamondLists(v0, v1, v2, v3, 0);
    DiamondLists(v0, v1, v2, v3, 1);
    DiamondLists(v0, v1, v2, v3, 2);
    DiamondLists(v0, v1, v2, v3, 3);
    DiamondLists(v0, v1, v2, v3, 4);
  }

  /** The emission pass over those tables: four rays and one segment,
      joining the two stored centers. */
  lemma DiamondDrawing(m: EdgeFaces, pos: FacePos, c0: Center, c1: Center)
    requires pos.Keys == {0, 1} && pos[0] == c0 && pos[1] == c1
    requires m.Keys == {0, 1, 2, 3, 4}
    requires m[0] == [0] && m[1] == [0] && m[2] == [1] && m[3] == [1] && m[4] == [0, 1]
    ensures Linked(m, pos)
    ensures var ps := EmitPaths(m, pos, [0, 1, 2, 3, 4]);
      var r0 := Ray(c0, ScaleCenter(c0, RayScale));
      var r1 := Ray(c1, ScaleCenter(c1, RayScale));
      && ps == [r0, r0, r1, r1, Segment(c0, c1)]
      && CountSegments(ps) == 1
      && CountRays(ps) == 4
      && ps[4] == Segment(c0, c1)
    ensures EmitMarkers(pos, [0, 1]) == [c0, c1]
  {
    var ps := EmitPaths(m, pos, [0, 1, 2, 3, 4]);
    var r0 := Ray(c0, ScaleCenter(c0, RayScale));
    var r1 := Ray(c1, ScaleCenter(c1, RayScale));
    assert ps == [r0, r0, r1, r1, Segment(c0, c1)];
    assert ps == [] + [r0] + [r0] + [r1] + [r1] + [Segment(c0, c1)];
    CountSnoc([], r0);
    CountSnoc([] + [r0], r0);
    CountSnoc([] + [r0] + [r0], r1);
    CountSnoc([] + [r0] + [r0] + [r1], r1);
    CountSnoc([] + [r0] + [r0] + [r1] + [r1], Segment(c0, c1));
  }

  /** The half of the square above the diagonal has the square's center as
      circumcenter. */
  lemma UpperHalfCenter(v0: Point, v1: Point, v2: Point, v3: Point)
    requires v0 == Point(-500.0, 0.0) && v1 == Point(0.0, 500.0)
    requires v2 == Point(500.0, 0.0) && v3 == Point(0.0, -500.0)
    ensures Circumcenter(Diamond(v0, v1, v2, v3)[0]) == Finite(Origin)
  {
    var f := Diamond(v0, v1, v2, v3)[0];
    assert A(f) == v0 && B(f) == v2 && C(f) == v1;
    assert Cross(Sub(v2, v0), Sub(v1, v0)) == 500000.0;
    assert DistSq(Origin, v0) == 250000.0 && DistSq(Origin, v1) == 250000.0 && DistSq(Origin, v2) == 250000.0;
    CircumcenterUnique(f, Origin);
  }

  /** So does the half below it. */
  lemma LowerHalfCenter(v0: Point, v1: Point, v2: Point, v3: Point)
    requires v0 == Point(-500.0, 0.0) && v1 == Point(0.0, 500.0)
    requires v2 == Point(500.0, 0.0) && v3 == Point(0.0, -500.0)
    ensures Circumcenter(Diamond(v0, v1, v2, v3)[1]) == Finite(Origin)
  {
    var f := Diamond(v0, v1, v2, v3)[1];
    assert A(f) == v0 && B(f) == v3 && C(f) == v2;
    assert Cross(Sub(v3, v0), Sub(v2, v0)) == 500000.0;
    assert DistSq(Origin, v0) == 250000.0 && DistSq(Origin, v3) == 250000.0 && DistSq(Origin, v2) == 250000.0;
    CircumcenterUnique(f, Origin);
  }

  /** The whole extraction over the two faces, walking the edges and the
      faces in index order: rays for the four boundary edges, from the center
      of the one face listing each, and the segment between the two centers
      for the diagonal. */
  lemma DiamondExtract(v0: Point, v1: Point, v2: Point, v3: Point)
    ensures EdgeIds(Diamond(v0, v1, v2, v3)) == {0, 1, 2, 3, 4}
    ensures FaceIndices(Diamond(v0, v1, v2, v3)) == {0, 1}
    ensures var faces := Diamond(v0, v1, v2, v3);
      var c0 := Circumcenter(faces[0]);
      var c1 := Circumcenter(faces[1]);
      var r0 := Ray(c0, ScaleCenter(c0, RayScale));
      var r1 := Ray(c1, ScaleCenter(c1, RayScale));
      var d := Extract(faces, [0, 1, 2, 3, 4], [0, 1]);
      && d == Drawing([r0, r0, r1, r1, Segment(c0, c1)], [c0, c1])
      && CountSegments(d.paths) == 1
      && CountRays(d.paths) == 4
  {
    var faces := Diamond(v0, v1, v2, v3);
    DiamondIds(v0, v1, v2, v3);
    DiamondTables(v0, v1, v2, v3);
    var t := Scan(faces);
    DiamondDrawing(t.edgeFaces, t.facePos, Circumcenter(faces[0]), Circumcenter(faces[1]));
  }

  /** The square with corners (−500, 0), (0, 500), (500, 0), (0, −500), split
      along one diagonal: two faces and five undirected edges give four rays
      and one segment. Both centers are the square's center, the origin, so
      the segment and all four rays have length zero: scaling the origin by
      `RayScale` leaves it where it is. */
  lemma SquareScenario(v0: Point, v1: Point, v2: Point, v3: Point)
    requires v0 == Point(-500.0, 0.0) && v1 == Point(0.0, 500.0)
    requires v2 == Point(500.0, 0.0) && v3 == Point(0.0, -500.0)
    ensures EdgeIds(Diamond(v0, v1, v2, v3)) == {0, 1, 2, 3, 4}
    ensures FaceIndices(Diamond(v0, v1, v2, v3)) == {0, 1}
    ensures var d := Extract(Diamond(v0, v1, v2, v3), [0, 1, 2, 3, 4], [0, 1]);
      var o := Finite(Origin);
      && CountSegments(d.paths) == 1
      && CountRays(d.paths) == 4
      && d.paths == [Ray(o, o), Ray(o, o), Ray(o, o), Ray(o, o), Segment(o, o)]
      && d.markers == [o, o]
  {
    var faces := Diamond(v0, v1, v2, v3);
    DiamondExtract(v0, v1, v2, v3);
    UpperHalfCenter(v0, v1, v2, v3);
    LowerHalfCenter(v0, v1, v2, v3);
    assert ScaleCenter(Finite(Origin), RayScale) == Finite(Origin);
  }
}
