/** The emission pass: one path per entry of the edge→faces table and one
    marker per stored center.

    The program walks both tables in hash-map order, which it leaves
    unspecified; here that order is an explicit parameter, a sequence that
    enumerates the table's keys once each. */
module Emission {
  import opened Geometry
  import opened Mesh
  import opened FaceLoop

  /** The far end of a boundary ray is its center scaled by this factor. */
  const RayScale: real := 100.0

  /** A drawn dual edge: a segment between two stored centers, or a ray from
      a stored center to that center scaled by `RayScale`. */
  datatype Path = Segment(from: Center, to: Center) | Ray(from: Center, to: Center)

  /** No key occurs twice in `order`. */
  predicate NoRepeats(order: seq<nat>) {
    forall i, j :: 0 <= i < j < |order| ==> order[i] != order[j]
  }

  /** `order` lists every element of `s`, and nothing else, exactly once. */
  predicate Enumerates(order: seq<nat>, s: set<nat>) {
    && NoRepeats(order)
    && (forall i :: 0 <= i < |order| ==> order[i] in s)
    && (forall x :: x in s ==> x in order)
  }

  /** An enumeration is as long as the set it enumerates. */
  lemma {:induction false} EnumerationSize(order: seq<nat>, s: set<nat>)
    requires Enumerates(order, s)
    ensures |order| == |s|
    decreases |order|
  {
    if order != [] {
      var n := |order| - 1;
      var x := order[n];
      assert Enumerates(order[..n], s - {x}) by {
        forall y | y in s - {x} ensures y in order[..n] {
          var i :| 0 <= i < |order| && order[i] == y;
          assert i != n;
          assert order[..n][i] == y;
        }
      }
      EnumerationSize(order[..n], s - {x});
    } else {
      assert forall y :: y in s ==> y in order;
      assert s == {};
    }
  }

  /** A sequence without repeats holds each of its elements once. */
  lemma {:induction false} OnceEach(order: seq<nat>, x: nat)
    requires NoRepeats(order)
    ensures multiset(order)[x] == if x in order then 1 else 0
    decreases |order|
  {
    if order != [] {
      var n := |order| - 1;
      assert order == order[..n] + [order[n]];
      OnceEach(order[..n], x);
      if x == order[n] {
        assert x !in order[..n] by {
          forall i | 0 <= i < n ensures order[..n][i] != x {
            assert order[..n][i] == order[i];
          }
        }
      }
    }
  }

  /** Two enumerations of one set are permutations of each other. */
  lemma EnumerationsPermute(o1: seq<nat>, o2: seq<nat>, s: set<nat>)
    requires Enumerates(o1, s) && Enumerates(o2, s)
    ensures multiset(o1) == multiset(o2)
  {
    forall x ensures multiset(o1)[x] == multiset(o2)[x] {
      OnceEach(o1, x);
      OnceEach(o2, x);
    }
  }

  /** Taking out the element at `k` takes one copy of it out of the multiset. */
  lemma RemoveAt<T>(s: seq<T>, k: nat)
    requires k < |s|
    ensures multiset(s) == multiset(s[..k] + s[k + 1..]) + multiset{s[k]}
  {
    assert s == s[..k] + [s[k]] + s[k + 1..];
  }

  /** Adding one copy of x to both sides can be cancelled. */
  lemma CancelOne<T>(a: multiset<T>, b: multiset<T>, x: T)
    requires a + multiset{x} == b + multiset{x}
    ensures a == b
  {
    forall y ensures a[y] == b[y] {
      assert (a + multiset{x})[y] == (b + multiset{x})[y];
    }
  }

  /** Images taken pointwise over two permutations of the same keys, where
      equal keys give equal images, are permutations of each other. */
  lemma {:induction false} ImagesPermute<T>(o1: seq<nat>, a1: seq<T>, o2: seq<nat>, a2: seq<T>)
    requires |a1| == |o1| && |a2| == |o2|
    requires multiset(o1) == multiset(o2)
    requires forall i, j :: 0 <= i < |o1| && 0 <= j < |o2| && o1[i] == o2[j] ==> a1[i] == a2[j]
    ensures multiset(a1) == multiset(a2)
    decreases |o1|
  {
    if o1 == [] {
      assert |multiset(o2)| == 0;
      assert a2 == [];
    } else {
      var n := |o1| - 1;
      var x := o1[n];
      assert x in multiset(o2) by {
        RemoveAt(o1, n);
      }
      var k :| 0 <= k < |o2| && o2[k] == x;
      var p2 := o2[..k] + o2[k + 1..];
      var b2 := a2[..k] + a2[k + 1..];
      RemoveAt(o1, n);
      RemoveAt(o2, k);
      RemoveAt(a1, n);
      RemoveAt(a2, k);
      assert o1[..n] + o1[n + 1..] == o1[..n];
      assert a1[..n] + a1[n + 1..] == a1[..n];
      CancelOne(multiset(o1[..n]), multiset(p2), x);
      forall i, j | 0 <= i < n && 0 <= j < |p2| && o1[..n][i] == p2[j]
        ensures a1[..n][i] == b2[j]
      {
        if j < k {
          assert p2[j] == o2[j] && b2[j] == a2[j];
        } else {
          assert p2[j] == o2[j + 1] && b2[j] == a2[j + 1];
        }
      }
      ImagesPermute(o1[..n], a1[..n], p2, b2);
    }
  }

  /** The path drawn for one edge's list. A list with more than one face
      gives the segment between the centers of its first two faces; a
      single face gives the ray from its center C to RayScale·C. */
  function EdgePath(faces: seq<nat>, pos: FacePos): (p: Path)
    requires |faces| > 0
    requires forall j :: 0 <= j < |faces| ==> faces[j] in pos
    ensures p.Segment? <==> |faces| > 1
    ensures p.from == pos[faces[0]]
    ensures p.Segment? ==> p.to == pos[faces[1]]
    ensures p.Ray? ==> p.to == ScaleCenter(p.from, RayScale)
  {
    if |faces| > 1 then Segment(pos[faces[0]], pos[faces[1]])
    else Ray(pos[faces[0]], ScaleCenter(pos[faces[0]], RayScale))
  }

  /** Faces beyond the second never influence the path. */
  lemma OnlyFirstTwoFaces(faces: seq<nat>, pos: FacePos)
    requires |faces| > 0
    requires forall j :: 0 <= j < |faces| ==> faces[j] in pos
    ensures var k := if |faces| > 1 then 2 else 1;
      EdgePath(faces, pos) == EdgePath(faces[..k], pos)
  {
  }

  /** A ray of a finite center C stays on the line through the origin and C,
      and runs outward by 99·C: its direction is that of C itself, whatever
      boundary edge it stands for. */
  lemma RayIsRadial(faces: seq<nat>, pos: FacePos)
    requires |faces| == 1
    requires faces[0] in pos && pos[faces[0]].Finite?
    ensures var p := EdgePath(faces, pos);
      p.Ray? && p.to.Finite?
      && Cross(p.from.at, p.to.at) == 0.0
      && Sub(p.to.at, p.from.at) == Scale(p.from.at, RayScale - 1.0)
  {
    var c := pos[faces[0]].at;
    assert Cross(c, Scale(c, RayScale)) == RayScale * (c.x * c.y - c.y * c.x);
  }

  /** The paths for the entries of `m` taken in `order`. */
  function EmitPaths(m: EdgeFaces, pos: FacePos, order: seq<nat>): (ps: seq<Path>)
    requires Linked(m, pos)
    requires forall i :: 0 <= i < |order| ==> order[i] in m
    ensures |ps| == |order|
    ensures forall i :: 0 <= i < |order| ==> ps[i] == EdgePath(m[order[i]], pos)
    decreases |order|
  {
    if order == [] then []
    else
      var n := |order| - 1;
      EmitPaths(m, pos, order[..n]) + [EdgePath(m[order[n]], pos)]
  }

  function CountSegments(ps: seq<Path>): nat
    decreases |ps|
  {
    if ps == [] then 0
    else CountSegments(ps[..|ps| - 1]) + (if ps[|ps| - 1].Segment? then 1 else 0)
  }

  function CountRays(ps: seq<Path>): nat
    decreases |ps|
  {
    if ps == [] then 0
    else CountRays(ps[..|ps| - 1]) + (if ps[|ps| - 1].Ray? then 1 else 0)
  }

  /** Appending one path adds it to the count of its kind. */
  lemma CountSnoc(ps: seq<Path>, p: Path)
    ensures CountSegments(ps + [p]) == CountSegments(ps) + (if p.Segment? then 1 else 0)
    ensures CountRays(ps + [p]) == CountRays(ps) + (if p.Ray? then 1 else 0)
  {
    assert (ps + [p])[..|ps|] == ps;
  }

  /** Every path is a segment or a ray. */
  lemma {:induction false} SegmentsPlusRays(ps: seq<Path>)
    ensures CountSegments(ps) + CountRays(ps) == |ps|
    decreases |ps|
  {
    if ps != [] {
      SegmentsPlusRays(ps[..|ps| - 1]);
    }
  }

  /** The edges shared by more than one face. */
  function InteriorEdges(m: EdgeFaces): set<nat> {
    set e | e in m && |m[e]| > 1
  }

  /** The edges with a single face. */
  function BoundaryEdges(m: EdgeFaces): set<nat> {
    set e | e in m && |m[e]| == 1
  }

  /** The keys in `order` whose list has more than one face. */
  function SharedIn(m: EdgeFaces, order: seq<nat>): set<nat>
    requires forall i :: 0 <= i < |order| ==> order[i] in m
  {
    set e | e in order && |m[e]| > 1
  }

  /** The keys in `order` whose list has a single face. */
  function SingleIn(m: EdgeFaces, order: seq<nat>): set<nat>
    requires forall i :: 0 <= i < |order| ==> order[i] in m
  {
    set e | e in order && |m[e]| == 1
  }

  /** Extending a duplicate-free order by one key adds that key to the
      count of its class. */
  lemma ClassSnoc(m: EdgeFaces, order: seq<nat>)
    requires |order| > 0
    requires forall i :: 0 <= i < |order| ==> order[i] in m
    requires NoRepeats(order)
    ensures var n := |order| - 1; var x := order[n];
      && |SharedIn(m, order)| == |SharedIn(m, order[..n])| + (if |m[x]| > 1 then 1 else 0)
      && |SingleIn(m, order)| == |SingleIn(m, order[..n])| + (if |m[x]| == 1 then 1 else 0)
  {
    var n := |order| - 1;
    var x := order[n];
    var init := order[..n];
    assert order == init + [x];
    assert x !in init by {
      forall i | 0 <= i < n ensures init[i] != x {
        assert init[i] == order[i];
      }
    }
    assert SharedIn(m, order) == SharedIn(m, init) + (if |m[x]| > 1 then {x} else {});
    assert SingleIn(m, order) == SingleIn(m, init) + (if |m[x]| == 1 then {x} else {});
  }

  /** Over any duplicate-free order, the segments counted are the listed
      edges with more than one face, and the rays those with one. */
  lemma {:induction false} CountsOverOrder(m: EdgeFaces, pos: FacePos, order: seq<nat>)
    requires Linked(m, pos)
    requires forall i :: 0 <= i < |order| ==> order[i] in m
    requires NoRepeats(order)
    ensures CountSegments(EmitPaths(m, pos, order)) == |SharedIn(m, order)|
    ensures CountRays(EmitPaths(m, pos, order)) == |SingleIn(m, order)|
    decreases |order|
  {
    if order == [] {
      assert SharedIn(m, order) == {};
      assert SingleIn(m, order) == {};
    } else {
      var n := |order| - 1;
      var x := order[n];
      var init := order[..n];
      CountsOverOrder(m, pos, init);
      assert EmitPaths(m, pos, order) == EmitPaths(m, pos, init) + [EdgePath(m[x], pos)];
      CountSnoc(EmitPaths(m, pos, init), EdgePath(m[x], pos));
      ClassSnoc(m, order);
    }
  }

  /** Path counts over an enumeration of the table: one segment per interior
      edge, one ray per boundary edge, one path per key in all. */
  lemma PathCounts(m: EdgeFaces, pos: FacePos, order: seq<nat>)
    requires Linked(m, pos)
    requires Enumerates(order, m.Keys)
    ensures CountSegments(EmitPaths(m, pos, order)) == |InteriorEdges(m)|
    ensures CountRays(EmitPaths(m, pos, order)) == |BoundaryEdges(m)|
    ensures CountSegments(EmitPaths(m, pos, order)) + CountRays(EmitPaths(m, pos, order)) == |m|
  {
    CountsOverOrder(m, pos, order);
    assert SharedIn(m, order) == InteriorEdges(m) by {
      forall e | e in InteriorEdges(m) ensures e in SharedIn(m, order) {
        assert e in order;
      }
    }
    assert SingleIn(m, order) == BoundaryEdges(m) by {
      forall e | e in BoundaryEdges(m) ensures e in SingleIn(m, order) {
        assert e in order;
      }
    }
    SegmentsPlusRays(EmitPaths(m, pos, order));
    EnumerationSize(order, m.Keys);
  }

  /** The paths drawn do not depend on the table's iteration order: any two
      enumerations give the same paths, counted with multiplicity. */
  lemma PathsOrderFree(m: EdgeFaces, pos: FacePos, o1: seq<nat>, o2: seq<nat>)
    requires Linked(m, pos)
    requires Enumerates(o1, m.Keys) && Enumerates(o2, m.Keys)
    ensures multiset(EmitPaths(m, pos, o1)) == multiset(EmitPaths(m, pos, o2))
  {
    EnumerationsPermute(o1, o2, m.Keys);
    ImagesPermute(o1, EmitPaths(m, pos, o1), o2, EmitPaths(m, pos, o2));
  }

  /** One marker per entry of the face→center table, taken in `order`. */
  function EmitMarkers(pos: FacePos, order: seq<nat>): (cs: seq<Center>)
    requires forall i :: 0 <= i < |order| ==> order[i] in pos
    ensures |cs| == |order|
    ensures forall i :: 0 <= i < |order| ==> cs[i] == pos[order[i]]
  {
    seq(|order|, i requires 0 <= i < |order| => pos[order[i]])
  }

  /** The markers do not depend on the table's iteration order either. */
  lemma MarkersOrderFree(pos: FacePos, o1: seq<nat>, o2: seq<nat>)
    requires Enumerates(o1, pos.Keys) && Enumerates(o2, pos.Keys)
    ensures multiset(EmitMarkers(pos, o1)) == multiset(EmitMarkers(pos, o2))
  {
    EnumerationsPermute(o1, o2, pos.Keys);
    ImagesPermute(o1, EmitMarkers(pos, o1), o2, EmitMarkers(pos, o2));
  }

  /** Over an enumeration of the table, there is one marker per stored
      center and the markers show exactly the stored centers. */
  lemma MarkersShowCenters(pos: FacePos, order: seq<nat>)
    requires Enumerates(order, pos.Keys)
    ensures |EmitMarkers(pos, order)| == |pos|
    ensures (set c | c in EmitMarkers(pos, order)) == pos.Values
  {
    EnumerationSize(order, pos.Keys);
    var cs := EmitMarkers(pos, order);
    forall c | c in pos.Values ensures c in cs {
      var k :| k in pos && pos[k] == c;
      var i :| 0 <= i < |order| && order[i] == k;
      assert cs[i] == c;
    }
  }
}
