/**
 * The global matrices of the two integrators, as functions of the model
 * state: the diagonal mass matrix `M`, the stiffness matrix `K` that
 * `SimulateOnceNR` assembles with four `SetBlock` calls per visited pair, the
 * coefficient matrix `SimulateOnceMin` assembles edge by edge, and the
 * selector `K_mat` that `updateKMat` builds. Entries are addressed as
 * `(r, c)`; particle `r / 3` owns row `r`, component `r % 3`.
 */
module Stiffness {
  import opened Vectors
  import opened Topology
  import opened Forces

  // ---------------------------------------------------------------------------
  // Mass matrix and selector
  // ---------------------------------------------------------------------------

  /** Entry `(r, c)` of `M`: `mass[i]` at `(3i + d, 3i + d)`, zero elsewhere. */
  function MassAt(mass: seq<real>, r: nat, c: nat): real {
    if r == c && r / 3 < |mass| then mass[r / 3] else 0.0
  }

  /** Entry `(r, c)` of `K_mat` for `n` particles: one exactly on the first `n` diagonal positions. */
  function SelectorAt(n: nat, r: nat, c: nat): real {
    if r == c && r < n then 1.0 else 0.0
  }

  // ---------------------------------------------------------------------------
  // The stiffness matrix of SimulateOnceNR
  // ---------------------------------------------------------------------------

  /**
   * The block the assembly computes for the visit `(i, j)`:
   * `calcNablaFintComponent(i, j)`. Zero stands in where the per-edge terms
   * are undefined, which no visit of a valid state reaches.
   */
  function VisitBlock(s: Springs, i: nat, j: nat): (b: Mat3)
    ensures IsSymmetric(b)
  {
    if Defined(s, i, j) then CalcNablaFintComponent(s, i, j) else MZero
  }

  /**
   * What the four `SetBlock` calls of one visit add at `(r, c)`: the block
   * `b` into blocks `(i, i)` and `(j, j)`, its negation into blocks `(i, j)`
   * and `(j, i)`.
   */
  function VisitContrib(b: Mat3, i: nat, j: nat, r: nat, c: nat): real {
    var d, e := r % 3, c % 3;
    (if r / 3 == i && c / 3 == i then b.At(d, e) else 0.0)
    + (if r / 3 == j && c / 3 == j then b.At(d, e) else 0.0)
    + (if r / 3 == i && c / 3 == j then -b.At(d, e) else 0.0)
    + (if r / 3 == j && c / 3 == i then -b.At(d, e) else 0.0)
  }

  /** Entry `(r, c)` of `K` after the visits `vs`, in order. */
  function StiffnessAt(s: Springs, vs: seq<(nat, nat)>, r: nat, c: nat): real {
    if vs == [] then 0.0
    else
      var (i, j) := vs[|vs| - 1];
      StiffnessAt(s, vs[..|vs| - 1], r, c) + VisitContrib(VisitBlock(s, i, j), i, j, r, c)
  }

  lemma StiffnessSnoc(s: Springs, vs: seq<(nat, nat)>, v: (nat, nat), r: nat, c: nat)
    ensures StiffnessAt(s, vs + [v], r, c) == StiffnessAt(s, vs, r, c) + VisitContrib(VisitBlock(s, v.0, v.1), v.0, v.1, r, c)
  {
    assert (vs + [v])[..|vs|] == vs;
  }

  /** `K` is symmetric: every visit adds a symmetric pattern of symmetric blocks. */
  lemma {:induction false} StiffnessSymmetric(s: Springs, vs: seq<(nat, nat)>, r: nat, c: nat)
    ensures StiffnessAt(s, vs, r, c) == StiffnessAt(s, vs, c, r)
  {
    if vs != [] {
      var (i, j) := vs[|vs| - 1];
      StiffnessSymmetric(s, vs[..|vs| - 1], r, c);
      SymmetricAt(VisitBlock(s, i, j), r % 3, c % 3);
    }
  }

  /** Sum over the block columns `J` below `n` of entry `(r, 3J + e)` of `K`. */
  function BlockRowSum(s: Springs, vs: seq<(nat, nat)>, r: nat, e: nat, n: nat): real {
    if n == 0 then 0.0 else BlockRowSum(s, vs, r, e, n - 1) + StiffnessAt(s, vs, r, 3 * (n - 1) + e)
  }

  /** Sum over the block columns `J` below `n` of what one visit adds at `(r, 3J + e)`. */
  function VisitRowSum(b: Mat3, i: nat, j: nat, r: nat, e: nat, n: nat): real {
    if n == 0 then 0.0 else VisitRowSum(b, i, j, r, e, n - 1) + VisitContrib(b, i, j, r, 3 * (n - 1) + e)
  }

  lemma {:induction false} VisitRowSumValue(b: Mat3, i: nat, j: nat, r: nat, e: nat, n: nat)
    requires e < 3
    ensures VisitRowSum(b, i, j, r, e, n) ==
              (if r / 3 == i && i < n then b.At(r % 3, e) else 0.0)
              + (if r / 3 == j && j < n then b.At(r % 3, e) else 0.0)
              - (if r / 3 == i && j < n then b.At(r % 3, e) else 0.0)
              - (if r / 3 == j && i < n then b.At(r % 3, e) else 0.0)
  {
    if n > 0 {
      VisitRowSumValue(b, i, j, r, e, n - 1);
      var c := 3 * (n - 1) + e;
      assert c / 3 == n - 1 && c % 3 == e;
    }
  }

  lemma {:induction false} BlockRowSumSnoc(s: Springs, vs: seq<(nat, nat)>, v: (nat, nat), r: nat, e: nat, n: nat)
    ensures BlockRowSum(s, vs + [v], r, e, n) ==
              BlockRowSum(s, vs, r, e, n) + VisitRowSum(VisitBlock(s, v.0, v.1), v.0, v.1, r, e, n)
  {
    if n > 0 {
      BlockRowSumSnoc(s, vs, v, r, e, n - 1);
      StiffnessSnoc(s, vs, v, r, 3 * (n - 1) + e);
    }
  }

  lemma {:induction false} BlockRowSumEmpty(s: Springs, r: nat, e: nat, n: nat)
    ensures BlockRowSum(s, [], r, e, n) == 0.0
  {
    if n > 0 {
      BlockRowSumEmpty(s, r, e, n - 1);
    }
  }

  /**
   * Every block row of `K` sums to zero: for each row `r` and component
   * `e`, the entries `(r, 3J + e)` over all particles `J` add up to zero,
   * as long as every visit names particles below `n`.
   */
  lemma {:induction false} StiffnessRowSumZero(s: Springs, vs: seq<(nat, nat)>, r: nat, e: nat, n: nat)
    requires e < 3
    requires forall t :: 0 <= t < |vs| ==> vs[t].0 < n && vs[t].1 < n
    ensures BlockRowSum(s, vs, r, e, n) == 0.0
  {
    if vs == [] {
      BlockRowSumEmpty(s, r, e, n);
    } else {
      var init, v := vs[..|vs| - 1], vs[|vs| - 1];
      assert vs == init + [v];
      assert v.0 < n && v.1 < n;
      StiffnessRowSumZero(s, init, r, e, n);
      BlockRowSumSnoc(s, init, v, r, e, n);
      VisitRowSumValue(VisitBlock(s, v.0, v.1), v.0, v.1, r, e, n);
    }
  }

  /**
   * The stiffness matrix `updateKMat` and `SimulateOnceNR` build from a
   * well-formed edge list over `n` particles has block rows that sum to zero.
   */
  lemma StiffnessRowSumZeroOfEdges(s: Springs, edges: EdgeList, n: nat, r: nat, e: nat)
    requires WellFormed(edges, n) && e < 3
    ensures BlockRowSum(s, Visits(edges, n), r, e, n) == 0.0
  {
    var vs := Visits(edges, n);
    forall t | 0 <= t < |vs|
      ensures vs[t].0 < n && vs[t].1 < n
    {
      VisitsSound(edges, n, t);
    }
    StiffnessRowSumZero(s, vs, r, e, n);
  }

  /**
   * Seen from the edges: in a well-formed edge list, each edge is visited
   * once from each of its endpoints, so its block enters `K` twice.
   */
  lemma StiffnessVisitsEachEdgeTwice(edges: EdgeList, n: nat, a: nat, b: nat)
    requires WellFormed(edges, n) && a < n && b < n
    ensures Count(Visits(edges, n), (a, b)) == Joining(edges, a, b)
    ensures Count(Visits(edges, n), (b, a)) == Joining(edges, a, b)
  {
    VisitsMultiplicity(edges, n, a, b);
    VisitsMultiplicity(edges, n, b, a);
    AdjVSymmetric(edges, a, b);
    AdjVSymmetric(edges, b, a);
  }

  // ---------------------------------------------------------------------------
  // The coefficient matrix of SimulateOnceMin
  // ---------------------------------------------------------------------------

  /**
   * What edge `(vi, vj)` adds to the coefficient matrix at `(r, c)`, given
   * its scaled block `hsn = h^2 B`: `-hsn` into the diagonal blocks
   * `(vi, vi)` and `(vj, vj)` only.
   */
  function MinEdgeContrib(hsn: Mat3, vi: nat, vj: nat, r: nat, c: nat): real {
    var d, e := r % 3, c % 3;
    (if r / 3 == vi && c / 3 == vi then -hsn.At(d, e) else 0.0)
    + (if r / 3 == vj && c / 3 == vj then -hsn.At(d, e) else 0.0)
  }

  /** The edge terms of the first `n` edges at `(r, c)`. */
  function MinEdgesAt(s: Springs, edges: EdgeList, h: real, n: nat, r: nat, c: nat): real
    requires n <= EdgeCount(edges)
  {
    if n == 0 then 0.0
    else
      var vi, vj := Src(edges, n - 1), Dst(edges, n - 1);
      MinEdgesAt(s, edges, h, n - 1, r, c) + MinEdgeContrib(MScale(h * h, VisitBlock(s, vi, vj)), vi, vj, r, c)
  }

  /** Entry `(r, c)` of the coefficient matrix: `M` plus the edge terms. */
  function MinCoeffAt(s: Springs, mass: seq<real>, edges: EdgeList, h: real, r: nat, c: nat): real {
    MassAt(mass, r, c) + MinEdgesAt(s, edges, h, EdgeCount(edges), r, c)
  }

  /**
   * The coefficient matrix is block diagonal and symmetric: the edge terms
   * reach only the diagonal blocks of their endpoints, so particles are not
   * coupled through it.
   */
  lemma MinEdgeContribShape(hsn: Mat3, vi: nat, vj: nat, r: nat, c: nat)
    requires IsSymmetric(hsn)
    ensures r / 3 != c / 3 ==> MinEdgeContrib(hsn, vi, vj, r, c) == 0.0
    ensures MinEdgeContrib(hsn, vi, vj, r, c) == MinEdgeContrib(hsn, vi, vj, c, r)
  {
    SymmetricAt(hsn, r % 3, c % 3);
  }

  lemma {:induction false} MinEdgesShape(s: Springs, edges: EdgeList, h: real, n: nat, r: nat, c: nat)
    requires n <= EdgeCount(edges)
    ensures r / 3 != c / 3 ==> MinEdgesAt(s, edges, h, n, r, c) == 0.0
    ensures MinEdgesAt(s, edges, h, n, r, c) == MinEdgesAt(s, edges, h, n, c, r)
  {
    if n > 0 {
      MinEdgesShape(s, edges, h, n - 1, r, c);
      var vi, vj := Src(edges, n - 1), Dst(edges, n - 1);
      var hsn := MScale(h * h, VisitBlock(s, vi, vj));
      MScaleSymmetric(h * h, VisitBlock(s, vi, vj));
      MinEdgeContribShape(hsn, vi, vj, r, c);
      assert MinEdgesAt(s, edges, h, n, r, c) == MinEdgesAt(s, edges, h, n - 1, r, c) + MinEdgeContrib(hsn, vi, vj, r, c);
      assert MinEdgesAt(s, edges, h, n, c, r) == MinEdgesAt(s, edges, h, n - 1, c, r) + MinEdgeContrib(hsn, vi, vj, c, r);
    }
  }

  lemma MinCoeffShape(s: Springs, mass: seq<real>, edges: EdgeList, h: real, r: nat, c: nat)
    ensures r / 3 != c / 3 ==> MinCoeffAt(s, mass, edges, h, r, c) == 0.0
    ensures MinCoeffAt(s, mass, edges, h, r, c) == MinCoeffAt(s, mass, edges, h, c, r)
  {
    MinEdgesShape(s, edges, h, EdgeCount(edges), r, c);
  }
}
