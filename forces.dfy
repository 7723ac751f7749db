/**
 * The per-edge force model: `getK`, `calcFint` (the spring force on `x_i`
 * from the edge `(i, j)`) and `calcNablaFintComponent` (its 3x3 derivative
 * with respect to `x_i`), over exact reals. The Euclidean norm
 * `(x_i - x_j).norm()` is the abstract `dist`.
 */
module Forces {
  import opened Vectors
  import opened Topology

  /**
   * What the per-edge terms read: the positions they are evaluated at (the
   * source's `pos_step_k` argument), the rest-length index, the single global
   * stiffness and the distance abstraction.
   */
  datatype Springs = Springs(pos: seq<Vec3>, rest: map<(nat, nat), real>, stiff: real, dist: (Vec3, Vec3) -> real)

  /**
   * The per-edge terms of `(i, j)` can be evaluated: both are particles,
   * `getOrigLen(i, j)` passes its two asserts, and the distance it divides by
   * is positive.
   */
  predicate Defined(s: Springs, i: nat, j: nat) {
    && i < |s.pos| && j < |s.pos| && i != j
    && Key(i, j) in s.rest && s.rest[Key(i, j)] > 0.0
    && s.dist(s.pos[i], s.pos[j]) > 0.0
  }

  /** `getK(i, j)`: every pair has the one global stiffness; there is no per-edge stiffness. */
  function GetK(s: Springs, i: nat, j: nat): (k: real)
    ensures k == s.stiff
  {
    s.stiff
  }

  /**
   * The spring force on a particle at `xi` from a spring to `xj` with
   * stiffness `k`, rest length `l` and current length `d`:
   * `k (d - l) / d (xj - xi)`. It lies along the spring, vanishes at rest
   * length and, for a positive stiffness, pulls toward `xj` exactly when the
   * spring is stretched.
   */
  function SpringForce(k: real, l: real, d: real, xi: Vec3, xj: Vec3): Vec3
    requires d > 0.0
  {
    Scale(k * (d - l) / d, Sub(xj, xi))
  }

  lemma SpringForceDirection(k: real, l: real, d: real, xi: Vec3, xj: Vec3)
    requires d > 0.0
    ensures exists c :: SpringForce(k, l, d, xi, xj) == Scale(c, Sub(xj, xi)) &&
                        (d == l ==> c == 0.0) &&
                        (k > 0.0 ==> (c > 0.0 <==> d > l))
  {
    var c := k * (d - l) / d;
    assert k > 0.0 ==> (c > 0.0 <==> d > l) by {
      if k > 0.0 {
        SignOfQuotient(k * (d - l), d);
        SignOfProduct(k, d - l);
      }
    }
    assert SpringForce(k, l, d, xi, xj) == Scale(c, Sub(xj, xi));
  }

  /**
   * The derivative of that force with respect to `xi`:
   * `k (l/d - 1) I - k l / d^3 (xi - xj)(xi - xj)^T`, a symmetric matrix.
   */
  function SpringJacobian(k: real, l: real, d: real, xi: Vec3, xj: Vec3): (m: Mat3)
    requires d > 0.0
    ensures IsSymmetric(m)
  {
    var u := Sub(xi, xj);
    MSub(MScale(k * ((l / d) - 1.0), Identity), MScale(k * l * (1.0 / (d * d * d)), Outer(u, u)))
  }

  /** Swapping the two ends of a spring negates the force it exerts. */
  lemma SpringForceAntisymmetric(k: real, l: real, d: real, xi: Vec3, xj: Vec3)
    requires d > 0.0
    ensures SpringForce(k, l, d, xi, xj) == Neg(SpringForce(k, l, d, xj, xi))
  {
    var c := k * (d - l) / d;
    assert SpringForce(k, l, d, xi, xj) == Scale(c, Sub(xj, xi));
    assert SpringForce(k, l, d, xj, xi) == Scale(c, Sub(xi, xj));
  }

  /** Swapping the two ends of a spring leaves its Jacobian block unchanged. */
  lemma SpringJacobianSwap(k: real, l: real, d: real, xi: Vec3, xj: Vec3)
    requires d > 0.0
    ensures SpringJacobian(k, l, d, xi, xj) == SpringJacobian(k, l, d, xj, xi)
  {
    var u := Sub(xi, xj);
    assert Sub(xj, xi) == Neg(u);
    assert Outer(u, u) == Outer(Neg(u), Neg(u));
  }

  /** `calcFint(i, j, pos)`: the force on particle `i` from the edge `(i, j)` at positions `s.pos`. */
  function CalcFint(s: Springs, i: nat, j: nat): Vec3
    requires Defined(s, i, j)
  {
    var xi, xj := s.pos[i], s.pos[j];
    SpringForce(GetK(s, i, j), GetOrigLen(s.rest, i, j), s.dist(xi, xj), xi, xj)
  }

  /** `calcNablaFintComponent(i, j, pos)`: the derivative of that force with respect to `x_i`. */
  function CalcNablaFintComponent(s: Springs, i: nat, j: nat): Mat3
    requires Defined(s, i, j)
  {
    var xi, xj := s.pos[i], s.pos[j];
    SpringJacobian(GetK(s, i, j), GetOrigLen(s.rest, i, j), s.dist(xi, xj), xi, xj)
  }

  lemma SignOfQuotient(a: real, d: real)
    requires d > 0.0
    ensures a / d > 0.0 <==> a > 0.0
  {
  }

  lemma SignOfProduct(k: real, a: real)
    requires k > 0.0
    ensures k * a > 0.0 <==> a > 0.0
  {
  }

  /**
   * The forces of one edge on its two endpoints are opposite (the assert at
   * line 260): `calcFint(i, j) == -calcFint(j, i)`.
   */
  lemma FintAntisymmetric(s: Springs, i: nat, j: nat)
    requires IsDistance(s.dist)
    requires Defined(s, i, j)
    ensures Defined(s, j, i)
    ensures CalcFint(s, i, j) == Neg(CalcFint(s, j, i))
  {
    KeyInjective(i, j, j, i);
    assert s.dist(s.pos[i], s.pos[j]) == s.dist(s.pos[j], s.pos[i]);
    SpringForceAntisymmetric(s.stiff, s.rest[Key(i, j)], s.dist(s.pos[i], s.pos[j]), s.pos[i], s.pos[j]);
  }

  /**
   * One edge's Jacobian block is the same seen from either endpoint (the
   * assert at line 246): `calcNablaFintComponent(i, j) == calcNablaFintComponent(j, i)`.
   */
  lemma NablaFintSwap(s: Springs, i: nat, j: nat)
    requires IsDistance(s.dist)
    requires Defined(s, i, j)
    ensures Defined(s, j, i)
    ensures CalcNablaFintComponent(s, i, j) == CalcNablaFintComponent(s, j, i)
  {
    KeyInjective(i, j, j, i);
    assert s.dist(s.pos[i], s.pos[j]) == s.dist(s.pos[j], s.pos[i]);
    SpringJacobianSwap(s.stiff, s.rest[Key(i, j)], s.dist(s.pos[i], s.pos[j]), s.pos[i], s.pos[j]);
  }

  /**
   * In a well-formed system whose rest-length index covers the edge list,
   * the per-edge terms of every edge are defined in both orientations.
   */
  lemma EdgeDefined(s: Springs, edges: EdgeList, k: nat)
    requires WellFormed(edges, |s.pos|) && Covers(s.rest, edges) && IsDistance(s.dist)
    requires k < EdgeCount(edges)
    ensures Defined(s, Src(edges, k), Dst(edges, k)) && Defined(s, Dst(edges, k), Src(edges, k))
  {
    KeyInjective(Src(edges, k), Dst(edges, k), Dst(edges, k), Src(edges, k));
  }

  /** ... and so are the terms of every pair `getAdjV` yields. */
  lemma AdjacentDefined(s: Springs, edges: EdgeList, i: nat, j: nat)
    requires WellFormed(edges, |s.pos|) && Covers(s.rest, edges) && IsDistance(s.dist)
    requires j in AdjV(edges, i)
    ensures Defined(s, i, j)
  {
    var k := AdjVSound(edges, |s.pos|, i, j);
    EdgeDefined(s, edges, k);
  }
}
