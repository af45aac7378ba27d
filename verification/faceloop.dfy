/** The face loop: one pass over the inner faces that fills the edge→faces
    table and the face→center table. */
module FaceLoop {
  import opened Geometry
  import opened Mesh

  /** Undirected edge index ↦ indices of the faces listing it, in visiting order. */
  type EdgeFaces = map<nat, seq<nat>>

  /** Face index ↦ stored center. */
  type FacePos = map<nat, Center>

  /** The list held for `e`, empty when `e` has no entry yet. */
  function Entry(m: EdgeFaces, e: nat): seq<nat> {
    if e in m then m[e] else []
  }

  /** Appending face `f` to the list of edge `e`, creating the list on first
      use; every other list is untouched. */
  function Push(m: EdgeFaces, e: nat, f: nat): (r: EdgeFaces)
    ensures r.Keys == m.Keys + {e}
    ensures Entry(r, e) == Entry(m, e) + [f]
    ensures forall k :: k != e ==> Entry(r, k) == Entry(m, k)
  {
    m[e := Entry(m, e) + [f]]
  }

  /** The index of `f`, once for each adjacent edge of `f` that is `e`. */
  function Listing(f: Face, e: nat): seq<nat> {
    (if f.e0.id == e then [f.index] else [])
      + (if f.e1.id == e then [f.index] else [])
      + (if f.e2.id == e then [f.index] else [])
  }

  lemma EdgeIdsSnoc(faces: seq<Face>)
    requires |faces| > 0
    ensures EdgeIds(faces) == EdgeIds(faces[..|faces| - 1]) + {faces[|faces| - 1].e0.id, faces[|faces| - 1].e1.id, faces[|faces| - 1].e2.id}
  {
    var n := |faces| - 1;
    assert faces == faces[..n] + [faces[n]];
    forall e | e in EdgeIds(faces)
      ensures e in EdgeIds(faces[..n]) + {faces[n].e0.id, faces[n].e1.id, faces[n].e2.id}
    {
      var f, k :| f in faces && 0 <= k < 3 && Edges(f)[k].id == e;
      if f != faces[n] {
        assert f in faces[..n];
      }
    }
    forall e | e in EdgeIds(faces[..n])
      ensures e in EdgeIds(faces)
    {
      var f, k :| f in faces[..n] && 0 <= k < 3 && Edges(f)[k].id == e;
      assert f in faces;
    }
    var last := faces[n];
    assert last in faces;
    assert Edges(last)[0].id == last.e0.id && Edges(last)[1].id == last.e1.id && Edges(last)[2].id == last.e2.id;
  }

  lemma FaceIndicesSnoc(faces: seq<Face>)
    requires |faces| > 0
    ensures FaceIndices(faces) == FaceIndices(faces[..|faces| - 1]) + {faces[|faces| - 1].index}
  {
    var n := |faces| - 1;
    assert faces == faces[..n] + [faces[n]];
  }

  /** Reference definition of an edge's list: the faces that list `e`, in
      face order, once per listing. */
  function FacesOn(faces: seq<Face>, e: nat): (r: seq<nat>)
    ensures |r| > 0 <==> e in EdgeIds(faces)
    ensures forall x :: x in r <==> exists f :: f in faces && Lists(f, e) && f.index == x
    decreases |faces|
  {
    if faces == [] then []
    else
      var n := |faces| - 1;
      EdgeIdsSnoc(faces);
      assert faces == faces[..n] + [faces[n]];
      FacesOn(faces[..n], e) + Listing(faces[n], e)
  }

  /** `faces[j]` is the first face, in visiting order, that lists `e`. */
  predicate FirstToList(faces: seq<Face>, e: nat, j: nat) {
    j < |faces| && Lists(faces[j], e) && forall k :: 0 <= k < j ==> !Lists(faces[k], e)
  }

  /** An edge's list starts with the index of the first face that lists it:
      the face whose center the emission draws from. */
  lemma {:induction false} FirstListingLeads(faces: seq<Face>, e: nat, j: nat)
    requires FirstToList(faces, e, j)
    ensures |FacesOn(faces, e)| > 0 && FacesOn(faces, e)[0] == faces[j].index
    decreases |faces|
  {
    var n := |faces| - 1;
    var prev := FacesOn(faces[..n], e);
    assert FacesOn(faces, e) == prev + Listing(faces[n], e);
    if j < n {
      assert FirstToList(faces[..n], e, j) by {
        forall k | 0 <= k < j ensures !Lists(faces[..n][k], e) {
          assert faces[..n][k] == faces[k];
        }
        assert faces[..n][j] == faces[j];
      }
      FirstListingLeads(faces[..n], e, j);
      assert faces[..n][j] == faces[j];
    } else {
      assert prev == [];
      assert |Listing(faces[n], e)| > 0 && Listing(faces[n], e)[0] == faces[n].index;
    }
  }

  /** The three pushes the loop body makes for one face, one per adjacent
      edge in edge order. */
  function AddFace(m: EdgeFaces, f: Face): (r: EdgeFaces)
    ensures r.Keys == m.Keys + {f.e0.id, f.e1.id, f.e2.id}
    ensures forall e :: Entry(r, e) == Entry(m, e) + Listing(f, e)
  {
    var r := Push(Push(Push(m, f.e0.id, f.index), f.e1.id, f.index), f.e2.id, f.index);
    AddFaceEntries(m, f);
    r
  }

  lemma AddFaceEntries(m: EdgeFaces, f: Face)
    ensures forall e ::
      Entry(Push(Push(Push(m, f.e0.id, f.index), f.e1.id, f.index), f.e2.id, f.index), e)
        == Entry(m, e) + Listing(f, e)
  {
    forall e
      ensures Entry(Push(Push(Push(m, f.e0.id, f.index), f.e1.id, f.index), f.e2.id, f.index), e)
        == Entry(m, e) + Listing(f, e)
    {
      AddFaceEntry(m, f, e);
    }
  }

  lemma AddFaceEntry(m: EdgeFaces, f: Face, e: nat)
    ensures Entry(Push(Push(Push(m, f.e0.id, f.index), f.e1.id, f.index), f.e2.id, f.index), e)
      == Entry(m, e) + Listing(f, e)
  {
    var m1 := Push(m, f.e0.id, f.index);
    var m2 := Push(m1, f.e1.id, f.index);
    var s0 := if f.e0.id == e then [f.index] else [];
    var s1 := if f.e1.id == e then [f.index] else [];
    var s2 := if f.e2.id == e then [f.index] else [];
    PushEntry(m, f.e0.id, f.index, e);
    PushEntry(m1, f.e1.id, f.index, e);
    PushEntry(m2, f.e2.id, f.index, e);
    assert ((Entry(m, e) + s0) + s1) + s2 == Entry(m, e) + ((s0 + s1) + s2);
  }

  /** One push, seen from a single edge. */
  lemma PushEntry(m: EdgeFaces, k: nat, f: nat, e: nat)
    ensures Entry(Push(m, k, f), e) == Entry(m, e) + (if k == e then [f] else [])
  {
  }

  /** The edge→faces table after visiting `faces`. Its keys are exactly the
      listed edges, each list is the reference list of its edge, and so no
      list is empty. */
  function BuildEdgeFaces(faces: seq<Face>): (m: EdgeFaces)
    ensures m.Keys == EdgeIds(faces)
    ensures forall e :: Entry(m, e) == FacesOn(faces, e)
    ensures forall e :: e in m ==> |m[e]| > 0
    decreases |faces|
  {
    if faces == [] then map[]
    else
      var n := |faces| - 1;
      var prev := BuildEdgeFaces(faces[..n]);
      var m := AddFace(prev, faces[n]);
      EdgeIdsSnoc(faces);
      assert forall e :: Entry(m, e) == FacesOn(faces, e) by {
        forall e ensures Entry(m, e) == FacesOn(faces, e) {
          assert Entry(m, e) == Entry(prev, e) + Listing(faces[n], e);
        }
      }
      assert forall e :: e in m ==> |m[e]| > 0 by {
        forall e | e in m ensures |m[e]| > 0 {
          assert Entry(m, e) == FacesOn(faces, e);
        }
      }
      m
  }

  /** The face is the last one in `faces` with its index. */
  predicate LastWithIndex(faces: seq<Face>, j: nat)
    requires j < |faces|
  {
    forall k :: j < k < |faces| ==> faces[k].index != faces[j].index
  }

  /** The face→center table after visiting `faces`: one entry per face index,
      holding the center of the last face with that index. */
  function BuildFacePos(faces: seq<Face>): (pos: FacePos)
    ensures pos.Keys == FaceIndices(faces)
    ensures forall j :: 0 <= j < |faces| && LastWithIndex(faces, j) ==> pos[faces[j].index] == Circumcenter(faces[j])
    decreases |faces|
  {
    if faces == [] then map[]
    else
      var n := |faces| - 1;
      var prev := BuildFacePos(faces[..n]);
      var pos := prev[faces[n].index := Circumcenter(faces[n])];
      FaceIndicesSnoc(faces);
      FacePosStep(faces, prev);
      pos
  }

  lemma FacePosStep(faces: seq<Face>, prev: FacePos)
    requires |faces| > 0
    requires prev.Keys == FaceIndices(faces[..|faces| - 1])
    requires forall j :: 0 <= j < |faces| - 1 && LastWithIndex(faces[..|faces| - 1], j) ==>
      prev[faces[j].index] == Circumcenter(faces[j])
    ensures var n := |faces| - 1;
      var pos := prev[faces[n].index := Circumcenter(faces[n])];
      forall j :: 0 <= j < |faces| && LastWithIndex(faces, j) ==> pos[faces[j].index] == Circumcenter(faces[j])
  {
    var n := |faces| - 1;
    var pos := prev[faces[n].index := Circumcenter(faces[n])];
    forall j | 0 <= j < |faces| && LastWithIndex(faces, j)
      ensures pos[faces[j].index] == Circumcenter(faces[j])
    {
      if j < n {
        assert faces[n].index != faces[j].index;
        assert faces[..n][j] in faces[..n];
        assert LastWithIndex(faces[..n], j) by {
          forall k | j < k < n ensures faces[..n][k].index != faces[..n][j].index {
            assert faces[..n][k] == faces[k];
          }
        }
      }
    }
  }

  /** The sum of the lengths of all lists in the table. */
  ghost function TotalLength(m: EdgeFaces): nat
    decreases |m|
  {
    if m == map[] then 0
    else
      var k :| k in m;
      assert (m - {k}).Keys == m.Keys - {k};
      |m[k]| + TotalLength(m - {k})
  }

  /** The total does not depend on which key is taken out first. */
  lemma {:induction false} TotalLengthRemove(m: EdgeFaces, k: nat)
    requires k in m
    ensures TotalLength(m) == |m[k]| + TotalLength(m - {k})
    decreases |m|
  {
    var j :| j in m && TotalLength(m) == |m[j]| + TotalLength(m - {j});
    if j != k {
      var mj := m - {j};
      var mk := m - {k};
      assert mj.Keys == m.Keys - {j};
      assert mk.Keys == m.Keys - {k};
      TotalLengthRemove(mj, k);
      TotalLengthRemove(mk, j);
      assert mj - {k} == mk - {j};
    }
  }

  /** One push adds exactly one to the total. */
  lemma {:induction false} TotalLengthPush(m: EdgeFaces, e: nat, f: nat)
    ensures TotalLength(Push(m, e, f)) == TotalLength(m) + 1
  {
    var r := Push(m, e, f);
    TotalLengthRemove(r, e);
    assert r - {e} == m - {e};
    if e in m {
      TotalLengthRemove(m, e);
    } else {
      assert m - {e} == m;
    }
  }

  /** Every face contributes one entry per adjacent edge, so the lists hold
      three entries per visited face in all. */
  lemma {:induction false} EdgeFacesTotal(faces: seq<Face>)
    ensures TotalLength(BuildEdgeFaces(faces)) == 3 * |faces|
    decreases |faces|
  {
    if faces != [] {
      var n := |faces| - 1;
      var f := faces[n];
      var m := BuildEdgeFaces(faces[..n]);
      EdgeFacesTotal(faces[..n]);
      var m1 := Push(m, f.e0.id, f.index);
      var m2 := Push(m1, f.e1.id, f.index);
      TotalLengthPush(m, f.e0.id, f.index);
      TotalLengthPush(m1, f.e1.id, f.index);
      TotalLengthPush(m2, f.e2.id, f.index);
    }
  }

  /** Face indices pairwise distinct, as the triangulation hands them out. */
  predicate DistinctIndices(faces: seq<Face>) {
    forall i, j :: 0 <= i < j < |faces| ==> faces[i].index != faces[j].index
  }

  /** With distinct face indices the face→center table has exactly one entry
      per face. */
  lemma {:induction false} OneCenterPerFace(faces: seq<Face>)
    requires DistinctIndices(faces)
    ensures |BuildFacePos(faces)| == |faces|
    decreases |faces|
  {
    if faces != [] {
      var n := |faces| - 1;
      assert DistinctIndices(faces[..n]);
      OneCenterPerFace(faces[..n]);
      FaceIndicesSnoc(faces);
      assert faces[n].index !in FaceIndices(faces[..n]);
      assert BuildFacePos(faces).Keys == BuildFacePos(faces[..n]).Keys + {faces[n].index};
    }
  }

  /** Both tables, as they stand after the face loop. */
  datatype Tables = Tables(facePos: FacePos, edgeFaces: EdgeFaces)

  /** What the emission relies on when it indexes the tables: every list has
      a first element and every face in a list has a stored center. */
  predicate Linked(edgeFaces: EdgeFaces, facePos: FacePos) {
    forall e :: e in edgeFaces ==>
      |edgeFaces[e]| > 0 && forall j :: 0 <= j < |edgeFaces[e]| ==> edgeFaces[e][j] in facePos
  }

  /** The face loop: both tables after visiting every inner face. Each list
      is exactly the faces listing its edge, each stored center is that of
      the last face with its index, and the tables are linked. */
  function Scan(faces: seq<Face>): (t: Tables)
    ensures t.edgeFaces.Keys == EdgeIds(faces)
    ensures forall e :: e in t.edgeFaces ==> t.edgeFaces[e] == FacesOn(faces, e)
    ensures t.facePos.Keys == FaceIndices(faces)
    ensures forall j :: 0 <= j < |faces| && LastWithIndex(faces, j) ==> t.facePos[faces[j].index] == Circumcenter(faces[j])
    ensures Linked(t.edgeFaces, t.facePos)
  {
    var m := BuildEdgeFaces(faces);
    var pos := BuildFacePos(faces);
    assert forall e :: e in m ==> m[e] == FacesOn(faces, e) by {
      forall e | e in m ensures m[e] == FacesOn(faces, e) {
        assert Entry(m, e) == FacesOn(faces, e);
      }
    }
    ScanLinked(faces, m, pos);
    Tables(pos, m)
  }

  lemma ScanLinked(faces: seq<Face>, m: EdgeFaces, pos: FacePos)
    requires m.Keys == EdgeIds(faces)
    requires forall e :: e in m ==> m[e] == FacesOn(faces, e)
    requires pos.Keys == FaceIndices(faces)
    ensures Linked(m, pos)
  {
    forall e, j | e in m && 0 <= j < |m[e]|
      ensures m[e][j] in pos
    {
      var x := m[e][j];
      assert x in FacesOn(faces, e);
      var f :| f in faces && Lists(f, e) && f.index == x;
    }
  }
}
