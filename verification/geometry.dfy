/** Plane geometry behind the circumcenter solver: points, lines in implicit
    form, perpendicular bisectors and the Cramer solution of two lines.

    The program computes in f64; here every coordinate is an exact real, so
    the bisector and Cramer identities hold exactly. A division by a zero
    determinant, which in f64 yields an infinite or NaN coordinate, is
    modelled by the `NonFinite` case of `Center`. */
module Geometry {

  datatype Point = Point(x: real, y: real)

  const Origin := Point(0.0, 0.0)

  function Sub(p: Point, q: Point): Point { Point(p.x - q.x, p.y - q.y) }

  function Dot(u: Point, v: Point): real { u.x * v.x + u.y * v.y }

  function Cross(u: Point, v: Point): real { u.x * v.y - u.y * v.x }

  /** Squared Euclidean distance. */
  function DistSq(p: Point, q: Point): real { Dot(Sub(p, q), Sub(p, q)) }

  function Midpoint(p: Point, q: Point): Point { Point((p.x + q.x) / 2.0, (p.y + q.y) / 2.0) }

  function Scale(p: Point, k: real): Point { Point(k * p.x, k * p.y) }

  predicate Collinear(p: Point, q: Point, r: Point) { Cross(Sub(q, p), Sub(r, p)) == 0.0 }

  /** `c` is at the same distance from all three points. */
  predicate Equidistant(c: Point, p: Point, q: Point, r: Point) {
    DistSq(c, p) == DistSq(c, q) && DistSq(c, q) == DistSq(c, r)
  }

  /** A coordinate pair as the program may hold it: a finite point, or the
      infinite/NaN pair produced by dividing by a zero determinant. */
  datatype Center = Finite(at: Point) | NonFinite

  /** Multiplying both coordinates by `k`; a non-finite pair stays non-finite. */
  function ScaleCenter(c: Center, k: real): Center {
    match c
    case Finite(p) => Finite(Scale(p, k))
    case NonFinite => NonFinite
  }

  /** The line of the points X with a·X.x + b·X.y == c. */
  datatype Line = Line(a: real, b: real, c: real)

  predicate OnLine(l: Line, X: Point) { l.a * X.x + l.b * X.y == l.c }

  /** The triple built for a directed edge P→Q: the perpendicular bisector of
      PQ, with normal Q − P, through the midpoint of PQ. */
  function Bisector(p: Point, q: Point): (l: Line)
    ensures OnLine(l, Midpoint(p, q))
    ensures (l.a == 0.0 && l.b == 0.0) <==> p == q
  {
    Line(q.x - p.x, q.y - p.y, 0.5 * (q.x * q.x - p.x * p.x + q.y * q.y - p.y * p.y))
  }

  /** The gap between the squared distances of X to P and to Q is twice the
      residual of X in the bisector's equation. */
  lemma BisectorResidual(p: Point, q: Point, X: Point)
    ensures var l := Bisector(p, q);
      DistSq(X, p) - DistSq(X, q) == 2.0 * (l.a * X.x + l.b * X.y - l.c)
  {
    var l := Bisector(p, q);
    assert DistSq(X, p) == X.x * X.x - 2.0 * X.x * p.x + p.x * p.x + X.y * X.y - 2.0 * X.y * p.y + p.y * p.y;
    assert DistSq(X, q) == X.x * X.x - 2.0 * X.x * q.x + q.x * q.x + X.y * X.y - 2.0 * X.y * q.y + q.y * q.y;
  }

  /** Bisector equivalence: X satisfies the triple built from P→Q exactly
      when X is as far from P as from Q. */
  lemma BisectorEquidistant(p: Point, q: Point, X: Point)
    ensures OnLine(Bisector(p, q), X) <==> DistSq(X, p) == DistSq(X, q)
  {
    BisectorResidual(p, q, X);
  }

  /** The determinant of the 2×2 system formed by two lines. */
  function Det(l1: Line, l2: Line): real { l1.a * l2.b - l2.a * l1.b }

  /** Cramer's rule: the point on both lines when the determinant is not zero. */
  function Solve(l1: Line, l2: Line): (X: Point)
    requires Det(l1, l2) != 0.0
    ensures OnLine(l1, X) && OnLine(l2, X)
  {
    var d := Det(l1, l2);
    var nx := l1.c * l2.b - l2.c * l1.b;
    var ny := l2.c * l1.a - l1.c * l2.a;
    CramerNumerators(l1, l2);
    var X := Point(nx / d, ny / d);
    assert l1.a * X.x + l1.b * X.y == (l1.a * nx + l1.b * ny) / d;
    assert l2.a * X.x + l2.b * X.y == (l2.a * nx + l2.b * ny) / d;
    X
  }

  /** The numerators of Cramer's rule, combined with either line's normal,
      give that line's constant times the determinant. */
  lemma CramerNumerators(l1: Line, l2: Line)
    ensures var nx := l1.c * l2.b - l2.c * l1.b;
      var ny := l2.c * l1.a - l1.c * l2.a;
      l1.a * nx + l1.b * ny == l1.c * Det(l1, l2) && l2.a * nx + l2.b * ny == l2.c * Det(l1, l2)
  {
  }

  /** Any point on both lines is the Cramer solution: with a non-zero
      determinant the two lines meet in exactly one point. */
  lemma SolveUnique(l1: Line, l2: Line, X: Point)
    requires Det(l1, l2) != 0.0
    requires OnLine(l1, X) && OnLine(l2, X)
    ensures X == Solve(l1, l2)
  {
    var d := Det(l1, l2);
    assert (l1.a * X.x + l1.b * X.y) * l2.b - (l2.a * X.x + l2.b * X.y) * l1.b == X.x * d;
    assert (l2.a * X.x + l2.b * X.y) * l1.a - (l1.a * X.x + l1.b * X.y) * l2.a == X.y * d;
    assert X.x == (l1.c * l2.b - l2.c * l1.b) / d;
    assert X.y == (l2.c * l1.a - l1.c * l2.a) / d;
  }

  /** Intersection of two lines as the program computes it: the Cramer
      solution, or a non-finite pair when the determinant is zero. */
  function Intersect(l1: Line, l2: Line): (c: Center)
    ensures c.Finite? <==> Det(l1, l2) != 0.0
    ensures c.Finite? ==> OnLine(l1, c.at) && OnLine(l2, c.at)
  {
    if Det(l1, l2) != 0.0 then Finite(Solve(l1, l2)) else NonFinite
  }

  /** Degeneracy: the determinant of the bisectors of P→Q and Q→R is the
      cross product of Q − P and R − P, so it vanishes exactly when the three
      points are collinear. */
  lemma BisectorDet(p: Point, q: Point, r: Point)
    ensures Det(Bisector(p, q), Bisector(q, r)) == Cross(Sub(q, p), Sub(r, p))
    ensures Det(Bisector(p, q), Bisector(q, r)) == 0.0 <==> Collinear(p, q, r)
  {
    var u := Sub(q, p);
    var w := Sub(r, p);
    assert Sub(r, q) == Sub(w, u);
    assert Cross(u, Sub(w, u)) == Cross(u, w) - Cross(u, u);
  }

  /** With a zero cross product, |u|²·w == (u·w)·u componentwise. */
  lemma ParallelScales(u: Point, w: Point)
    requires Cross(u, w) == 0.0
    ensures Dot(u, u) * w.x == Dot(u, w) * u.x
    ensures Dot(u, u) * w.y == Dot(u, w) * u.y
  {
    assert Dot(u, u) * w.x == Dot(u, w) * u.x - Cross(u, w) * u.y;
    assert Dot(u, u) * w.y == Dot(u, w) * u.y + Cross(u, w) * u.x;
  }

  /** X equidistant from P and Q, written relative to P: 2·(Q−P)·(X−P) == |Q−P|². */
  lemma EquidistantRelative(p: Point, q: Point, X: Point)
    requires DistSq(X, p) == DistSq(X, q)
    ensures 2.0 * Dot(Sub(q, p), Sub(X, p)) == Dot(Sub(q, p), Sub(q, p))
  {
    var u := Sub(q, p);
    var v := Sub(X, p);
    assert Sub(X, q) == Sub(v, u);
    assert Dot(Sub(v, u), Sub(v, u)) == Dot(v, v) - 2.0 * Dot(u, v) + Dot(u, u);
  }

  /** If u and w are non-zero and parallel, and some v has 2·u·v == |u|² and
      2·w·v == |w|², then u == w. */
  lemma ParallelChordsEqual(u: Point, w: Point, v: Point)
    requires Dot(u, u) != 0.0 && Dot(w, w) != 0.0
    requires Cross(u, w) == 0.0
    requires 2.0 * Dot(u, v) == Dot(u, u)
    requires 2.0 * Dot(w, v) == Dot(w, w)
    ensures u == w
  {
    var n := Dot(u, u);
    var s := Dot(u, w);
    var m := Dot(w, w);
    ParallelScales(u, w);
    assert n * Dot(w, v) == s * Dot(u, v) by {
      assert n * Dot(w, v) == (n * w.x) * v.x + (n * w.y) * v.y;
    }
    assert s * n == n * m;
    assert s == m;
    assert n * m == s * s by {
      assert n * m == (n * w.x) * w.x + (n * w.y) * w.y;
    }
    assert s * (n - s) == 0.0;
    assert s == n;
    assert n * w.x == n * u.x && n * w.y == n * u.y;
  }

  /** Three pairwise distinct collinear points have no equidistant point, so
      a degenerate face has no circumcenter a finite answer could stand for. */
  lemma NoCenterWhenCollinear(p: Point, q: Point, r: Point, X: Point)
    requires Collinear(p, q, r)
    requires DistSq(q, p) != 0.0 && DistSq(r, p) != 0.0 && DistSq(r, q) != 0.0
    ensures !Equidistant(X, p, q, r)
  {
    if Equidistant(X, p, q, r) {
      EquidistantRelative(p, q, X);
      EquidistantRelative(p, r, X);
      ParallelChordsEqual(Sub(q, p), Sub(r, p), Sub(X, p));
      assert false;
    }
  }
}
