// Plane geometry shared by every collision test of the game.
// SFML's float vectors are modelled as pairs of reals.
module Geometry {

  datatype Vec = Vec(x: real, y: real)

  function Add(a: Vec, b: Vec): Vec { Vec(a.x + b.x, a.y + b.y) }

  function Sub(a: Vec, b: Vec): Vec { Vec(a.x - b.x, a.y - b.y) }

  function Scale(a: Vec, k: real): Vec { Vec(a.x * k, a.y * k) }

  /** Squared Euclidean distance, the quantity every hit test compares. */
  function Dist2(a: Vec, b: Vec): (d: real)
    ensures d >= 0.0
  {
    var dx := a.x - b.x;
    var dy := a.y - b.y;
    NonNegSquare(dx);
    NonNegSquare(dy);
    dx * dx + dy * dy
  }

  /** A direction produced by (cos a, sin a). */
  predicate IsUnit(u: Vec) { u.x * u.x + u.y * u.y == 1.0 }

  function Min(a: real, b: real): real { if b < a then b else a }

  function Max(a: real, b: real): real { if a < b then b else a }

  /** std::max(lo, std::min(v, hi)) */
  function Clamp(v: real, lo: real, hi: real): (c: real)
    ensures lo <= hi ==> lo <= c <= hi
    ensures lo <= v <= hi ==> c == v
  {
    Max(lo, Min(v, hi))
  }

  lemma NonNegSquare(a: real)
    ensures a * a >= 0.0
  {
    if a < 0.0 {
      assert a * a == (-a) * (-a);
    }
  }

  lemma SquareMonotone(a: real, b: real)
    requires 0.0 <= a <= b
    ensures a * a <= b * b
  {
    assert a * a <= a * b;
    assert a * b <= b * b;
  }

  lemma Dist2Symmetric(a: Vec, b: Vec)
    ensures Dist2(a, b) == Dist2(b, a)
  {
    assert (a.x - b.x) * (a.x - b.x) == (b.x - a.x) * (b.x - a.x);
    assert (a.y - b.y) * (a.y - b.y) == (b.y - a.y) * (b.y - a.y);
  }

  /** Scaling twice is scaling by the product. */
  lemma ScaleTwice(v: Vec, a: real, b: real)
    ensures Scale(Scale(v, a), b) == Scale(v, a * b)
  {
    assert (v.x * a) * b == v.x * (a * b) && (v.y * a) * b == v.y * (a * b);
  }

  /** A point k units along a unit direction from c lies at squared distance k*k from c. */
  lemma ScaledUnitDistance(c: Vec, u: Vec, k: real)
    ensures IsUnit(u) ==> Dist2(Add(c, Scale(u, k)), c) == k * k
  {
    var p := Add(c, Scale(u, k));
    assert p.x - c.x == u.x * k && p.y - c.y == u.y * k;
    assert (u.x * k) * (u.x * k) + (u.y * k) * (u.y * k) == (u.x * u.x + u.y * u.y) * (k * k);
  }

  /** On one axis, the clamped coordinate is at least as close to v as any point of [lo, hi]. */
  lemma ClampIsNearest(v: real, lo: real, hi: real, q: real)
    requires lo <= q <= hi
    ensures (v - Clamp(v, lo, hi)) * (v - Clamp(v, lo, hi)) <= (v - q) * (v - q)
  {
    var c := Clamp(v, lo, hi);
    if v < lo {
      SquareMonotone(c - v, q - v);
      assert (v - c) * (v - c) == (c - v) * (c - v);
      assert (v - q) * (v - q) == (q - v) * (q - v);
    } else if v > hi {
      SquareMonotone(v - c, v - q);
    } else {
      NonNegSquare(v - q);
    }
  }

  /** Circle-vs-circle test used for bullets, enemies, the turret and the ring. */
  predicate CirclesMeet(p: Vec, q: Vec, r1: real, r2: real)
  {
    Dist2(p, q) <= (r1 + r2) * (r1 + r2)
  }

  // ----- axis-aligned box centred at the origin, against a circle -----

  predicate InBox(q: Vec, halfW: real, halfH: real)
  {
    -halfW <= q.x <= halfW && -halfH <= q.y <= halfH
  }

  /** The clamped point of the beam hit test. */
  function ClosestOnBox(p: Vec, halfW: real, halfH: real): (c: Vec)
    ensures halfW >= 0.0 && halfH >= 0.0 ==> InBox(c, halfW, halfH)
    ensures InBox(p, halfW, halfH) ==> c == p
  {
    Vec(Clamp(p.x, -halfW, halfW), Clamp(p.y, -halfH, halfH))
  }

  /** The beam test: the squared distance from the local point to the clamped point is at most r². */
  predicate BoxCircleHit(p: Vec, halfW: real, halfH: real, r: real)
  {
    Dist2(p, ClosestOnBox(p, halfW, halfH)) <= r * r
  }

  /** A local point inside the box is always a hit, whatever the radius. */
  lemma InsideBoxHits(p: Vec, halfW: real, halfH: real, r: real)
    requires InBox(p, halfW, halfH)
    ensures BoxCircleHit(p, halfW, halfH, r)
  {
    NonNegSquare(r);
  }

  /** The clamped point is the point of the box nearest to p. */
  lemma ClosestOnBoxIsNearest(p: Vec, halfW: real, halfH: real, q: Vec)
    requires InBox(q, halfW, halfH)
    ensures Dist2(p, ClosestOnBox(p, halfW, halfH)) <= Dist2(p, q)
  {
    ClampIsNearest(p.x, -halfW, halfW, q.x);
    ClampIsNearest(p.y, -halfH, halfH, q.y);
  }

  /** Soundness: a hit means some point of the box lies within r of p. */
  lemma BoxCircleHitHasWitness(p: Vec, halfW: real, halfH: real, r: real)
    requires halfW >= 0.0 && halfH >= 0.0
    requires BoxCircleHit(p, halfW, halfH, r)
    ensures exists q :: InBox(q, halfW, halfH) && Dist2(p, q) <= r * r
  {
    var c := ClosestOnBox(p, halfW, halfH);
    assert InBox(c, halfW, halfH) && Dist2(p, c) <= r * r;
  }

  /** Completeness: any point of the box within r of p makes the test report a hit. */
  lemma BoxCircleHitComplete(p: Vec, halfW: real, halfH: real, r: real, q: Vec)
    requires InBox(q, halfW, halfH)
    requires Dist2(p, q) <= r * r
    ensures BoxCircleHit(p, halfW, halfH, r)
  {
    ClosestOnBoxIsNearest(p, halfW, halfH, q);
  }
}
