/** The glMatrix `mat2d` subset the sprite-sheet extractor carries: a 2D
    affine map stored as six numbers [a, b, c, d, tx, ty] standing for
        x' = a·x + c·y + tx
        y' = b·x + d·y + ty.
    The in-place operators post-multiply: `translate(m, v)` is m·T(v), so the
    operator's own transform reaches a point before m does. Math.sin and
    Math.cos are not modelled: a rotation receives its sine and cosine. */
module Affine {

  datatype Mat6 = Mat6(a: real, b: real, c: real, d: real, tx: real, ty: real)

  datatype Vec = Vec(x: real, y: real)

  /** The sine and cosine of a rotation angle. */
  datatype SinCos = SinCos(sin: real, cos: real)

  const Identity: Mat6 := Mat6(1.0, 0.0, 0.0, 1.0, 0.0, 0.0)

  /** The point a matrix maps p to. */
  function Apply(m: Mat6, p: Vec): Vec {
    Vec(m.a * p.x + m.c * p.y + m.tx, m.b * p.x + m.d * p.y + m.ty)
  }

  function Neg(v: Vec): Vec {
    Vec(-v.x, -v.y)
  }

  /** p moved by v. */
  function Shift(p: Vec, v: Vec): Vec {
    Vec(p.x + v.x, p.y + v.y)
  }

  /** The rotation of p about the origin by the angle whose sine and cosine
      are given. */
  function Turn(sc: SinCos, p: Vec): Vec {
    Vec(sc.cos * p.x - sc.sin * p.y, sc.sin * p.x + sc.cos * p.y)
  }

  /** Composition: m·n, the map that applies n first, then m. */
  function Mul(m: Mat6, n: Mat6): Mat6 {
    Mat6(m.a * n.a + m.c * n.b, m.b * n.a + m.d * n.b,
         m.a * n.c + m.c * n.d, m.b * n.c + m.d * n.d,
         m.a * n.tx + m.c * n.ty + m.tx, m.b * n.tx + m.d * n.ty + m.ty)
  }

  /** Mul is composition of the maps. */
  lemma ApplyMul(m: Mat6, n: Mat6, p: Vec)
    ensures Apply(Mul(m, n), p) == Apply(m, Apply(n, p))
  {
    var q := Apply(n, p);
    calc {
      Apply(Mul(m, n), p).x;
      (m.a * n.a + m.c * n.b) * p.x + (m.a * n.c + m.c * n.d) * p.y + (m.a * n.tx + m.c * n.ty + m.tx);
      { Distribute(m.a, m.c, n.a, n.b, p.x); Distribute(m.a, m.c, n.c, n.d, p.y); }
      m.a * (n.a * p.x) + m.c * (n.b * p.x) + m.a * (n.c * p.y) + m.c * (n.d * p.y) + m.a * n.tx + m.c * n.ty + m.tx;
      { Distribute3(m.a, n.a * p.x, n.c * p.y, n.tx); Distribute3(m.c, n.b * p.x, n.d * p.y, n.ty); }
      m.a * q.x + m.c * q.y + m.tx;
    }
    calc {
      Apply(Mul(m, n), p).y;
      (m.b * n.a + m.d * n.b) * p.x + (m.b * n.c + m.d * n.d) * p.y + (m.b * n.tx + m.d * n.ty + m.ty);
      { Distribute(m.b, m.d, n.a, n.b, p.x); Distribute(m.b, m.d, n.c, n.d, p.y); }
      m.b * (n.a * p.x) + m.d * (n.b * p.x) + m.b * (n.c * p.y) + m.d * (n.d * p.y) + m.b * n.tx + m.d * n.ty + m.ty;
      { Distribute3(m.b, n.a * p.x, n.c * p.y, n.tx); Distribute3(m.d, n.b * p.x, n.d * p.y, n.ty); }
      m.b * q.x + m.d * q.y + m.ty;
    }
  }

  lemma Distribute(u: real, v: real, x: real, y: real, z: real)
    ensures (u * x + v * y) * z == u * (x * z) + v * (y * z)
  {
  }

  lemma Distribute3(u: real, x: real, y: real, z: real)
    ensures u * (x + y + z) == u * x + u * y + u * z
  {
  }

  /** Two matrices that agree on the origin and on both unit vectors are
      equal, so agreeing on every point determines a matrix. */
  lemma Extensionality(m: Mat6, n: Mat6)
    requires Apply(m, Vec(0.0, 0.0)) == Apply(n, Vec(0.0, 0.0))
    requires Apply(m, Vec(1.0, 0.0)) == Apply(n, Vec(1.0, 0.0))
    requires Apply(m, Vec(0.0, 1.0)) == Apply(n, Vec(0.0, 1.0))
    ensures m == n
  {
  }

  lemma MulAssociative(m: Mat6, n: Mat6, k: Mat6)
    ensures Mul(Mul(m, n), k) == Mul(m, Mul(n, k))
  {
    forall p: Vec ensures Apply(Mul(Mul(m, n), k), p) == Apply(Mul(m, Mul(n, k)), p) {
      ApplyMul(Mul(m, n), k, p);
      ApplyMul(m, n, Apply(k, p));
      ApplyMul(m, Mul(n, k), p);
      ApplyMul(n, k, p);
    }
    Extensionality(Mul(Mul(m, n), k), Mul(m, Mul(n, k)));
  }

  lemma MulIdentity(m: Mat6)
    ensures Mul(Identity, m) == m
    ensures Mul(m, Identity) == m
  {
  }

  /** glMatrix `translate`: only tx and ty change. */
  function Translate(m: Mat6, v: Vec): (r: Mat6)
    ensures r.(tx := m.tx, ty := m.ty) == m
  {
    Mat6(m.a, m.b, m.c, m.d, m.a * v.x + m.c * v.y + m.tx, m.b * v.x + m.d * v.y + m.ty)
  }

  /** glMatrix `scale`: tx and ty are kept. */
  function Scale(m: Mat6, v: Vec): (r: Mat6)
    ensures r.tx == m.tx && r.ty == m.ty
  {
    Mat6(m.a * v.x, m.b * v.x, m.c * v.y, m.d * v.y, m.tx, m.ty)
  }

  /** glMatrix `rotate`: tx and ty are kept. */
  function Rotate(m: Mat6, sc: SinCos): (r: Mat6)
    ensures r.tx == m.tx && r.ty == m.ty
  {
    var s := sc.sin;
    var c := sc.cos;
    Mat6(m.a * c + m.c * s, m.b * c + m.d * s, m.a * -s + m.c * c, m.b * -s + m.d * c, m.tx, m.ty)
  }

  /** What the in-place operators do to points: each one transforms a point
      first and then hands it to the matrix it was applied to. */
  lemma ApplyInPlace(m: Mat6, v: Vec, sc: SinCos, p: Vec)
    ensures Apply(Translate(m, v), p) == Apply(m, Shift(p, v))
    ensures Apply(Scale(m, v), p) == Apply(m, Vec(v.x * p.x, v.y * p.y))
    ensures Apply(Rotate(m, sc), p) == Apply(m, Turn(sc, p))
  {
    ApplyScale(m, v, p);
    ApplyRotate(m, sc, p);
  }

  lemma ApplyScale(m: Mat6, v: Vec, p: Vec)
    ensures Apply(Scale(m, v), p) == Apply(m, Vec(v.x * p.x, v.y * p.y))
  {
    var q := Vec(v.x * p.x, v.y * p.y);
    calc {
      Apply(Scale(m, v), p).x;
      (m.a * v.x) * p.x + (m.c * v.y) * p.y + m.tx;
      { assert (m.a * v.x) * p.x == m.a * (v.x * p.x);
        assert (m.c * v.y) * p.y == m.c * (v.y * p.y); }
      m.a * q.x + m.c * q.y + m.tx;
    }
    calc {
      Apply(Scale(m, v), p).y;
      (m.b * v.x) * p.x + (m.d * v.y) * p.y + m.ty;
      { assert (m.b * v.x) * p.x == m.b * (v.x * p.x);
        assert (m.d * v.y) * p.y == m.d * (v.y * p.y); }
      m.b * q.x + m.d * q.y + m.ty;
    }
  }

  lemma ApplyRotate(m: Mat6, sc: SinCos, p: Vec)
    ensures Apply(Rotate(m, sc), p) == Apply(m, Turn(sc, p))
  {
    var s, c := sc.sin, sc.cos;
    var q := Turn(sc, p);
    calc {
      Apply(Rotate(m, sc), p).x;
      (m.a * c + m.c * s) * p.x + (m.a * -s + m.c * c) * p.y + m.tx;
      { Distribute(m.a, m.c, c, s, p.x); Distribute(m.a, m.c, -s, c, p.y); }
      m.a * (c * p.x) + m.c * (s * p.x) + m.a * (-s * p.y) + m.c * (c * p.y) + m.tx;
      { Distribute2(m.a, c * p.x, -s * p.y); Distribute2(m.c, s * p.x, c * p.y); }
      m.a * (c * p.x + -s * p.y) + m.c * (s * p.x + c * p.y) + m.tx;
      m.a * q.x + m.c * q.y + m.tx;
    }
    calc {
      Apply(Rotate(m, sc), p).y;
      (m.b * c + m.d * s) * p.x + (m.b * -s + m.d * c) * p.y + m.ty;
      { Distribute(m.b, m.d, c, s, p.x); Distribute(m.b, m.d, -s, c, p.y); }
      m.b * (c * p.x) + m.d * (s * p.x) + m.b * (-s * p.y) + m.d * (c * p.y) + m.ty;
      { Distribute2(m.b, c * p.x, -s * p.y); Distribute2(m.d, s * p.x, c * p.y); }
      m.b * (c * p.x + -s * p.y) + m.d * (s * p.x + c * p.y) + m.ty;
      m.b * q.x + m.d * q.y + m.ty;
    }
  }

  lemma Distribute2(u: real, x: real, y: real)
    ensures u * (x + y) == u * x + u * y
  {
  }

  /** glMatrix `fromTranslation`: the in-place operator applied to the identity. */
  function FromTranslation(v: Vec): (r: Mat6)
    ensures r == Translate(Identity, v)
  {
    Mat6(1.0, 0.0, 0.0, 1.0, v.x, v.y)
  }

  /** glMatrix `fromScaling`: the in-place operator applied to the identity. */
  function FromScaling(v: Vec): (r: Mat6)
    ensures r == Scale(Identity, v)
  {
    Mat6(v.x, 0.0, 0.0, v.y, 0.0, 0.0)
  }

  /** glMatrix `fromRotation`: the in-place operator applied to the identity. */
  function FromRotation(sc: SinCos): (r: Mat6)
    ensures r == Rotate(Identity, sc)
  {
    Mat6(sc.cos, sc.sin, -sc.sin, sc.cos, 0.0, 0.0)
  }

  /** Each in-place operator is post-multiplication by the matching fresh
      matrix, which is what lets a chain of them be read as a product. */
  lemma TranslateIsPostMultiply(m: Mat6, v: Vec)
    ensures Translate(m, v) == Mul(m, FromTranslation(v))
  {
    var f := FromTranslation(v);
    assert f == Mat6(1.0, 0.0, 0.0, 1.0, v.x, v.y);
    var p := Mul(m, f);
    assert p.a == m.a && p.b == m.b && p.c == m.c && p.d == m.d;
    assert p.tx == m.a * v.x + m.c * v.y + m.tx;
    assert p.ty == m.b * v.x + m.d * v.y + m.ty;
    assert p == Mat6(m.a, m.b, m.c, m.d, m.a * v.x + m.c * v.y + m.tx, m.b * v.x + m.d * v.y + m.ty);
  }

  lemma ScaleIsPostMultiply(m: Mat6, v: Vec)
    ensures Scale(m, v) == Mul(m, FromScaling(v))
  {
    var p := Mul(m, Mat6(v.x, 0.0, 0.0, v.y, 0.0, 0.0));
    assert p.tx == m.tx && p.ty == m.ty;
  }

  lemma RotateIsPostMultiply(m: Mat6, sc: SinCos)
    ensures Rotate(m, sc) == Mul(m, FromRotation(sc))
  {
    var p := Mul(m, Mat6(sc.cos, sc.sin, -sc.sin, sc.cos, 0.0, 0.0));
    assert p.tx == m.tx && p.ty == m.ty;
  }

  /** The fresh matrix FromTransform.rotate builds for [deg, x, y]:
      T(-p)·R·T(p). */
  function PivotRotation(sc: SinCos, pivot: Vec): Mat6 {
    Translate(Rotate(FromTranslation(Neg(pivot)), sc), pivot)
  }

  /** A point is shifted by +pivot, rotated about the origin and shifted back
      by -pivot; so the point held still is -pivot, not pivot. */
  lemma PivotRotationFixesNegatedPivot(sc: SinCos, pivot: Vec, q: Vec)
    ensures Apply(PivotRotation(sc, pivot), q) == Shift(Turn(sc, Shift(q, pivot)), Neg(pivot))
    ensures Apply(PivotRotation(sc, pivot), Neg(pivot)) == Neg(pivot)
  {
    var f := FromTranslation(Neg(pivot));
    ApplyInPlace(Rotate(f, sc), pivot, sc, q);
    ApplyInPlace(f, pivot, sc, Shift(q, pivot));
    ApplyInPlace(Rotate(f, sc), pivot, sc, Neg(pivot));
    ApplyInPlace(f, pivot, sc, Shift(Neg(pivot), pivot));
  }

  /** A fresh translation moves every point by v. */
  lemma FromTranslationMoves(v: Vec, p: Vec)
    ensures Apply(FromTranslation(v), p) == Shift(p, v)
  {
  }

  /** With the pivot at the origin the pivot rotation is a plain turn. */
  lemma PivotAtOrigin(sc: SinCos, q: Vec)
    ensures Apply(PivotRotation(sc, Vec(0.0, 0.0)), q) == Turn(sc, q)
  {
    PivotRotationFixesNegatedPivot(sc, Vec(0.0, 0.0), q);
    TurnBetweenZeroShifts(sc, q);
  }

  /** Shifting by the zero vector on both sides of a turn is no shift. */
  lemma TurnBetweenZeroShifts(sc: SinCos, q: Vec)
    ensures Shift(Turn(sc, Shift(q, Vec(0.0, 0.0))), Neg(Vec(0.0, 0.0))) == Turn(sc, q)
  {
    ShiftByZero(q);
    ShiftByZero(Turn(sc, q));
  }

  lemma ShiftByZero(q: Vec)
    ensures Shift(q, Vec(0.0, 0.0)) == q
    ensures Shift(q, Neg(Vec(0.0, 0.0))) == q
  {
  }

  /** The in-place Transform.rotate on an accumulated matrix m: the same three
      steps applied to m, which equals m post-multiplied by the fresh pivot
      rotation. */
  function RotateAboutPivot(m: Mat6, sc: SinCos, pivot: Vec): (r: Mat6)
    ensures r == Mul(m, PivotRotation(sc, pivot))
  {
    var t := Translate(m, Neg(pivot));
    TranslateIsPostMultiply(m, Neg(pivot));
    RotateIsPostMultiply(t, sc);
    TranslateIsPostMultiply(Rotate(t, sc), pivot);
    var f := FromTranslation(Neg(pivot));
    RotateIsPostMultiply(f, sc);
    TranslateIsPostMultiply(Rotate(f, sc), pivot);
    MulIdentity(f);
    MulAssociative(m, f, FromRotation(sc));
    MulAssociative(m, Mul(f, FromRotation(sc)), FromTranslation(pivot));
    Translate(Rotate(t, sc), pivot)
  }
}
