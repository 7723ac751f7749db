/**
 * The loops that assemble the two integrators' systems, each proved against
 * the function that says what it builds: the force totals, the mass matrix,
 * the stiffness matrix of `SimulateOnceNR`, and the coefficient matrix and
 * right-hand side of one iteration of `SimulateOnceMin`.
 */
module Assembly {
  import opened Vectors
  import opened Topology
  import opened Forces
  import opened Sparse
  import opened Stiffness
  import opened Steps
  import opened Layout

  /** The rows `3i`, `3i + 1` and `3i + 2` are exactly those of block `i`, and `r % 3` is the offset. */
  lemma Window(r: nat, i: nat)
    ensures (3 * i <= r < 3 * i + 3) <==> r / 3 == i
    ensures r / 3 == i ==> r - 3 * i == r % 3
  {
  }

  /** The loop over `getAdjV(i)` that adds up the forces on particle `i`. */
  method SumAdjacentForces(s: Springs, edges: EdgeList, i: nat) returns (total: Vec3)
    requires WellFormed(edges, |s.pos|) && Covers(s.rest, edges) && IsDistance(s.dist)
    ensures total == InternalForce(s, edges, i)
  {
    var adj := GetAdjV(edges, i);
    total := Zero;
    var t := 0;
    while t < |adj|
      invariant 0 <= t <= |adj|
      invariant total == ForceSum(s, i, adj[..t])
    {
      AdjacentDefined(s, edges, i, adj[t]);
      total := Add(total, CalcFint(s, i, adj[t]));
      assert adj[..t + 1][..t] == adj[..t];
      t := t + 1;
    }
    assert adj[..|adj|] == adj;
  }

  /** `f_tot`: the external force of every particle, then its internal force added. */
  method AssembleForces(s: Springs, fExt: seq<Vec3>, edges: EdgeList) returns (fTot: seq<Vec3>)
    requires |fExt| == |s.pos|
    requires WellFormed(edges, |s.pos|) && Covers(s.rest, edges) && IsDistance(s.dist)
    ensures fTot == TotalForces(s, fExt, edges)
  {
    fTot := fExt;
    var i := 0;
    while i < |s.pos|
      invariant 0 <= i <= |s.pos| && |fTot| == |s.pos|
      invariant forall j :: 0 <= j < i ==> fTot[j] == TotalForces(s, fExt, edges)[j]
      invariant forall j :: i <= j < |s.pos| ==> fTot[j] == fExt[j]
    {
      var tem := SumAdjacentForces(s, edges, i);
      fTot := fTot[i := Add(fTot[i], tem)];
      i := i + 1;
    }
  }

  /** Inserts `mass[i]` at `(3i + d, 3i + d)` into an empty matrix, as both integrators do. */
  method InsertMass(m: SparseMatrix, mass: seq<real>)
    requires m.Valid() && m.entries == map[]
    requires m.rows == 3 * |mass| && m.cols == 3 * |mass|
    modifies m
    ensures m.Valid()
    ensures forall r: nat, c: nat :: m.At(r, c) == MassAt(mass, r, c)
  {
    var i := 0;
    while i < |mass|
      invariant 0 <= i <= |mass| && m.Valid()
      invariant forall key :: key in m.entries ==> key.0 < 3 * i
      invariant forall r: nat, c: nat :: m.At(r, c) == if r < 3 * i then MassAt(mass, r, c) else 0.0
    {
      m.Insert(3 * i, 3 * i, mass[i]);
      m.Insert(3 * i + 1, 3 * i + 1, mass[i]);
      m.Insert(3 * i + 2, 3 * i + 2, mass[i]);
      forall r: nat, c: nat
        ensures m.At(r, c) == if r < 3 * (i + 1) then MassAt(mass, r, c) else 0.0
      {
        Window(r, i);
      }
      i := i + 1;
    }
  }

  /** The mass matrix `M` of `SimulateOnceNR`: `mass[i]` at `(3i + d, 3i + d)` and zero elsewhere. */
  method AssembleMass(mass: seq<real>) returns (m: Entries)
    ensures forall r: nat, c: nat :: Entry(m, r, c) == MassAt(mass, r, c)
  {
    var mm := new SparseMatrix(3 * |mass|, 3 * |mass|);
    InsertMass(mm, mass);
    m := mm.entries;
    assert forall r: nat, c: nat :: Entry(m, r, c) == mm.At(r, c);
  }

  /** One visit `(i, j)`: `Kii` into blocks `(i, i)` and `(j, j)`, `-Kii` into `(i, j)` and `(j, i)`. */
  method AddVisit(k: SparseMatrix, i: nat, j: nat, kii: Mat3)
    requires k.Valid() && 3 * i + 3 <= k.rows && 3 * j + 3 <= k.rows && k.rows == k.cols
    modifies k
    ensures k.Valid()
    ensures forall r: nat, c: nat :: k.At(r, c) == old(k.At(r, c)) + VisitContrib(kii, i, j, r, c)
  {
    var kij := MNeg(kii);
    label L0:
    SetBlock(k, 3 * i, 3 * i, 3, 3, kii.Rows());
    label L1:
    SetBlock(k, 3 * j, 3 * j, 3, 3, kii.Rows());
    label L2:
    SetBlock(k, 3 * i, 3 * j, 3, 3, kij.Rows());
    label L3:
    SetBlock(k, 3 * j, 3 * i, 3, 3, kij.Rows());
    forall r: nat, c: nat
      ensures k.At(r, c) == old(k.At(r, c)) + VisitContrib(kii, i, j, r, c)
    {
      Window(r, i);
      Window(r, j);
      Window(c, i);
      Window(c, j);
      var d, e := r % 3, c % 3;
      RowsAt(kii, d, e);
      RowsAt(kij, d, e);
      assert old@L1(k.At(r, c)) == old@L0(k.At(r, c)) + (if r / 3 == i && c / 3 == i then kii.At(d, e) else 0.0);
      assert old@L2(k.At(r, c)) == old@L1(k.At(r, c)) + (if r / 3 == j && c / 3 == j then kii.At(d, e) else 0.0);
      assert old@L3(k.At(r, c)) == old@L2(k.At(r, c)) + (if r / 3 == i && c / 3 == j then -kii.At(d, e) else 0.0);
      assert k.At(r, c) == old@L3(k.At(r, c)) + (if r / 3 == j && c / 3 == i then -kii.At(d, e) else 0.0);
    }
  }

  /** `K` of `SimulateOnceNR`: the visits of every particle, in order. */
  method AssembleStiffness(s: Springs, edges: EdgeList) returns (k: SparseMatrix)
    requires WellFormed(edges, |s.pos|) && Covers(s.rest, edges) && IsDistance(s.dist)
    ensures fresh(k) && k.Valid() && k.rows == 3 * |s.pos| && k.cols == 3 * |s.pos|
    ensures forall r: nat, c: nat :: k.At(r, c) == StiffnessAt(s, Visits(edges, |s.pos|), r, c)
  {
    var n := |s.pos|;
    k := new SparseMatrix(3 * n, 3 * n);
    var i := 0;
    while i < n
      invariant 0 <= i <= n
      invariant fresh(k) && k.Valid() && k.rows == 3 * n && k.cols == 3 * n
      invariant forall r: nat, c: nat :: k.At(r, c) == StiffnessAt(s, Visits(edges, i), r, c)
    {
      AddVisitsOf(k, s, edges, i, Visits(edges, i));
      i := i + 1;
    }
  }

  /** The visits of particle `i`: one `AddVisit` for every `j` in `getAdjV(i)`. */
  method AddVisitsOf(k: SparseMatrix, s: Springs, edges: EdgeList, i: nat, ghost done: seq<(nat, nat)>)
    requires WellFormed(edges, |s.pos|) && Covers(s.rest, edges) && IsDistance(s.dist)
    requires k.Valid() && k.rows == 3 * |s.pos| && k.cols == 3 * |s.pos|
    requires forall r: nat, c: nat :: k.At(r, c) == StiffnessAt(s, done, r, c)
    modifies k
    ensures k.Valid()
    ensures forall r: nat, c: nat :: k.At(r, c) == StiffnessAt(s, done + Pairs(i, AdjV(edges, i)), r, c)
  {
    var adj := GetAdjV(edges, i);
    assert done + Pairs(i, adj[..0]) == done;
    var t := 0;
    while t < |adj|
      invariant 0 <= t <= |adj|
      invariant k.Valid()
      invariant forall r: nat, c: nat :: k.At(r, c) == StiffnessAt(s, done + Pairs(i, adj[..t]), r, c)
    {
      var j := adj[t];
      AdjacentDefined(s, edges, i, j);
      var kii := CalcNablaFintComponent(s, i, j);
      AddVisit(k, i, j, kii);
      ghost var before := done + Pairs(i, adj[..t]);
      assert adj[..t + 1][..t] == adj[..t];
      assert done + Pairs(i, adj[..t + 1]) == before + [(i, j)];
      forall r: nat, c: nat
        ensures k.At(r, c) == StiffnessAt(s, before + [(i, j)], r, c)
      {
        StiffnessSnoc(s, before, (i, j), r, c);
      }
      t := t + 1;
    }
    assert adj[..|adj|] == adj;
  }

  /**
   * The double loop of one edge in `SimulateOnceMin`: `-hsn(d, e)` into
   * entry `(d, e)` of blocks `(vi, vi)` and `(vj, vj)`.
   */
  method AddMinEdge(m: SparseMatrix, vi: nat, vj: nat, hsn: Mat3)
    requires m.Valid() && 3 * vi + 3 <= m.rows && 3 * vj + 3 <= m.rows && m.rows == m.cols
    modifies m
    ensures m.Valid()
    ensures forall r: nat, c: nat :: m.At(r, c) == old(m.At(r, c)) + MinEdgeContrib(hsn, vi, vj, r, c)
  {
    var d := 0;
    while d < 3
      invariant 0 <= d <= 3 && m.Valid()
      invariant forall r: nat, c: nat :: m.At(r, c) == old(m.At(r, c)) + MinEdgePart(hsn, vi, vj, r, c, d, 0)
    {
      var e := 0;
      while e < 3
        invariant 0 <= e <= 3 && m.Valid()
        invariant forall r: nat, c: nat :: m.At(r, c) == old(m.At(r, c)) + MinEdgePart(hsn, vi, vj, r, c, d, e)
      {
        label before:
        m.AddAt(3 * vi + d, 3 * vi + e, -hsn.At(d, e));
        m.AddAt(3 * vj + d, 3 * vj + e, -hsn.At(d, e));
        forall r: nat, c: nat
          ensures m.At(r, c) == old(m.At(r, c)) + MinEdgePart(hsn, vi, vj, r, c, d, e + 1)
        {
          Window(r, vi);
          Window(r, vj);
          Window(c, vi);
          Window(c, vj);
          assert m.At(r, c) == old@before(m.At(r, c))
            + (if r == 3 * vi + d && c == 3 * vi + e then -hsn.At(d, e) else 0.0)
            + (if r == 3 * vj + d && c == 3 * vj + e then -hsn.At(d, e) else 0.0);
        }
        e := e + 1;
      }
      forall r: nat, c: nat
        ensures MinEdgePart(hsn, vi, vj, r, c, d, 3) == MinEdgePart(hsn, vi, vj, r, c, d + 1, 0)
      {
      }
      d := d + 1;
    }
    forall r: nat, c: nat
      ensures MinEdgePart(hsn, vi, vj, r, c, 3, 0) == MinEdgeContrib(hsn, vi, vj, r, c)
    {
    }
  }

  /** What the double loop has added at `(r, c)` once it reaches row offset `d`, column offset `e`. */
  function MinEdgePart(hsn: Mat3, vi: nat, vj: nat, r: nat, c: nat, d: nat, e: nat): real {
    var dr, dc := r % 3, c % 3;
    if dr < d || (dr == d && dc < e) then MinEdgeContrib(hsn, vi, vj, r, c) else 0.0
  }

  /**
   * One iteration's system in `SimulateOnceMin`: `coeff_mat` cleared and set
   * to `M`, the rhs set to its edge-free part, then every edge's terms added;
   * on the way the three asserts of the edge loop hold.
   */
  method AssembleMinSystem(m: SparseMatrix, s: Springs, mass: seq<real>, edges: EdgeList, h: real,
                           calcG: (nat, Vec3) -> Vec3) returns (rhs: seq<Vec3>)
    requires m.rows == 3 * |s.pos| && m.cols == 3 * |s.pos| && |mass| == |s.pos|
    requires WellFormed(edges, |s.pos|) && Covers(s.rest, edges) && IsDistance(s.dist)
    modifies m
    ensures m.Valid()
    ensures forall r: nat, c: nat :: m.At(r, c) == MinCoeffAt(s, mass, edges, h, r, c)
    ensures rhs == MinRhs(s, mass, edges, h, calcG)
  {
    m.SetZero();
    InsertMass(m, mass);
    rhs := MinRhsBase(s, mass, calcG);
    rhs := AddEdgeTerms(m, s, edges, h, rhs);
  }

  /** The edge loop of one iteration of `SimulateOnceMin`: the terms of every edge, in edge-list order. */
  method AddEdgeTerms(m: SparseMatrix, s: Springs, edges: EdgeList, h: real, base: seq<Vec3>) returns (rhs: seq<Vec3>)
    requires m.Valid() && m.rows == 3 * |s.pos| && m.cols == 3 * |s.pos| && |base| == |s.pos|
    requires WellFormed(edges, |s.pos|) && Covers(s.rest, edges) && IsDistance(s.dist)
    modifies m
    ensures m.Valid()
    ensures forall r: nat, c: nat :: m.At(r, c) == old(m.At(r, c)) + MinEdgesAt(s, edges, h, EdgeCount(edges), r, c)
    ensures rhs == MinRhsUpTo(s, edges, h, base, EdgeCount(edges))
  {
    rhs := base;
    var k, count := 0, |edges| / 2;
    while k != count
      invariant count == EdgeCount(edges) && 0 <= k <= count && m.Valid()
      invariant forall r: nat, c: nat :: m.At(r, c) == old(m.At(r, c)) + MinEdgesAt(s, edges, h, k, r, c)
      invariant rhs == MinRhsUpTo(s, edges, h, base, k)
    {
      var vi, vj := edges[2 * k], edges[2 * k + 1];
      assert vi == Src(edges, k) && vj == Dst(edges, k);
      EdgeDefined(s, edges, k);
      label step:
      rhs := AddMinEdgeTerms(m, s, h, vi, vj, rhs);
      forall r: nat, c: nat
        ensures m.At(r, c) == old(m.At(r, c)) + MinEdgesAt(s, edges, h, k + 1, r, c)
      {
        AddToSum(old(m.At(r, c)), MinEdgesAt(s, edges, h, k, r, c), old@step(m.At(r, c)),
                 MinEdgeContrib(MScale(h * h, VisitBlock(s, vi, vj)), vi, vj, r, c), m.At(r, c));
      }
      assert rhs == MinRhsUpTo(s, edges, h, base, k + 1);
      k := k + 1;
    }
  }

  /** `a = a0 + s` and `b = a + d` give `b = a0 + (s + d)`. */
  lemma AddToSum(a0: real, s: real, a: real, d: real, b: real)
    requires a == a0 + s && b == a + d
    ensures b == a0 + (s + d)
  {
  }

  /**
   * One iteration of the edge loop of `SimulateOnceMin` for the edge
   * `(vi, vj)`: `-h^2 B` into the diagonal blocks of both endpoints, and
   * `h^2 f - h^2 B x_vi` and `-h^2 f - h^2 B x_vj` into their rhs entries,
   * where the three asserts of the loop hold of `B` and `f`.
   */
  method AddMinEdgeTerms(m: SparseMatrix, s: Springs, h: real, vi: nat, vj: nat, rhs: seq<Vec3>)
    returns (rhs': seq<Vec3>)
    requires m.Valid() && m.rows == 3 * |s.pos| && m.cols == 3 * |s.pos| && |rhs| == |s.pos|
    requires Defined(s, vi, vj) && Defined(s, vj, vi) && IsDistance(s.dist)
    modifies m
    ensures m.Valid()
    ensures forall r: nat, c: nat ::
              m.At(r, c) == old(m.At(r, c)) + MinEdgeContrib(MScale(h * h, VisitBlock(s, vi, vj)), vi, vj, r, c)
    ensures rhs' == MinRhsStep(s, h, rhs, vi, vj)
  {
    assert GetOrigLen(s.rest, vi, vj) > 0.0;
    var nabla := CalcNablaFintComponent(s, vi, vj);
    NablaFintSwap(s, vi, vj);
    assert nabla == CalcNablaFintComponent(s, vj, vi);
    var hsn := MScale(h * h, nabla);
    AddMinEdge(m, vi, vj, hsn);
    var f := CalcFint(s, vi, vj);
    FintAntisymmetric(s, vi, vj);
    assert f == Neg(CalcFint(s, vj, vi));
    var hsf := Scale(h * h, f);
    rhs' := rhs[vi := Add(rhs[vi], Add(hsf, MatVec(MNeg(hsn), s.pos[vi])))];
    rhs' := rhs'[vj := Add(rhs'[vj], Add(Neg(hsf), MatVec(MNeg(hsn), s.pos[vj])))];
  }

  /**
   * The loop of `calcResidual`: `g_mid` of every particle, written into
   * components `3i`, `3i + 1` and `3i + 2` of `aggregated`.
   */
  method AggregateResidual(s: Springs, mass: seq<real>, edges: EdgeList, h: real, calcY: nat -> Vec3, xNew: seq<real>)
    returns (aggregated: seq<real>)
    requires |mass| == |s.pos| && |xNew| == 3 * |s.pos|
    requires WellFormed(edges, |s.pos|) && Covers(s.rest, edges) && IsDistance(s.dist)
    ensures aggregated == Aggregated(s, mass, edges, h, calcY, xNew)
  {
    var n := |s.pos|;
    var buf := new real[3 * n];
    var i := 0;
    while i < n
      invariant 0 <= i <= n
      invariant forall j :: 0 <= j < i ==> Holds(buf[..], 3 * j, GMidOf(s, mass, edges, h, calcY, xNew, j))
    {
      var gMid := ComputeGMid(s, mass, edges, h, calcY(i), xNew, i);
      WriteBlock(buf, i, gMid);
      i := i + 1;
    }
    aggregated := buf[..];
    AggregatedFromBlocks(s, mass, edges, h, calcY, xNew, aggregated);
  }

  /** The three assignments `a(3i + d) = v(d)`. */
  method WriteBlock(a: array<real>, i: nat, v: Vec3)
    requires 3 * i + 3 <= a.Length
    modifies a
    ensures a[3 * i] == v.x && a[3 * i + 1] == v.y && a[3 * i + 2] == v.z
    ensures forall r :: 0 <= r < a.Length && !(3 * i <= r < 3 * i + 3) ==> a[r] == old(a[r])
  {
    a[3 * i] := v.x;
    a[3 * i + 1] := v.y;
    a[3 * i + 2] := v.z;
  }

  /** `a` holds `v` in its three components starting at `r`. */
  ghost predicate Holds(a: seq<real>, r: nat, v: Vec3)
  {
    r + 3 <= |a| && a[r] == v.x && a[r + 1] == v.y && a[r + 2] == v.z
  }

  function GMidOf(s: Springs, mass: seq<real>, edges: EdgeList, h: real, calcY: nat -> Vec3, xNew: seq<real>, i: nat): Vec3
    requires |mass| == |s.pos| && |xNew| == 3 * |s.pos| && i < |s.pos|
  {
    GMid(s, mass, edges, h, calcY(i), Block(xNew, i), i)
  }

  /** A vector holding every particle's `g_mid` in its three components is the aggregated vector. */
  lemma AggregatedFromBlocks(s: Springs, mass: seq<real>, edges: EdgeList, h: real, calcY: nat -> Vec3, xNew: seq<real>, a: seq<real>)
    requires |mass| == |s.pos| && |xNew| == 3 * |s.pos| && |a| == |xNew|
    requires forall j :: 0 <= j < |s.pos| ==> Holds(a, 3 * j, GMidOf(s, mass, edges, h, calcY, xNew, j))
    ensures a == Aggregated(s, mass, edges, h, calcY, xNew)
  {
    var gm := GMids(s, mass, edges, h, calcY, xNew);
    var agg := Pack(gm);
    forall r | 0 <= r < |a|
      ensures a[r] == agg[r]
    {
      IndexSplit(r);
      var j, d := r / 3, r % 3;
      assert agg[3 * j + d] == gm[j].At(d);
      assert gm[j] == GMidOf(s, mass, edges, h, calcY, xNew, j);
      assert Holds(a, 3 * j, gm[j]);
    }
  }

  /** One particle's `g_mid`: `mass[i] (x_new_i - y) - h^2 fint_total`. */
  method ComputeGMid(s: Springs, mass: seq<real>, edges: EdgeList, h: real, y: Vec3, xNew: seq<real>, i: nat)
    returns (gMid: Vec3)
    requires |mass| == |s.pos| && |xNew| == 3 * |s.pos| && i < |s.pos|
    requires WellFormed(edges, |s.pos|) && Covers(s.rest, edges) && IsDistance(s.dist)
    ensures gMid == GMid(s, mass, edges, h, y, Block(xNew, i), i)
  {
    var fintTotal := SumAdjacentForces(s, edges, i);
    gMid := Sub(Scale(mass[i], Sub(Block(xNew, i), y)), Scale(h * h, fintTotal));
  }

  /**
   * `A = M - h^2 K` of `SimulateOnceNR`, assembled sparse, is the dense `A` of
   * the step. `M` is the mass matrix the step built once (`massEntries`) and
   * also uses for the right-hand side.
   */
  method AssembleNRMatrix(s: Springs, mass: seq<real>, massEntries: Entries, edges: EdgeList, h: real) returns (a: Entries)
    requires |mass| == |s.pos|
    requires forall r: nat, c: nat :: Entry(massEntries, r, c) == MassAt(mass, r, c)
    requires WellFormed(edges, |s.pos|) && Covers(s.rest, edges) && IsDistance(s.dist)
    ensures Dense(a, 3 * |s.pos|, 3 * |s.pos|) == NRMatrix(s, mass, edges, h)
  {
    var kk := AssembleStiffness(s, edges);
    a := Combine(massEntries, kk.entries, -(h * h));
    NRMatrixFromParts(s, mass, edges, h, massEntries, kk);
  }

  /** `M - h^2 K` for sparse `M` and `K` that hold the mass and stiffness matrices. */
  lemma NRMatrixFromParts(s: Springs, mass: seq<real>, edges: EdgeList, h: real, mm: Entries, kk: SparseMatrix)
    requires forall r: nat, c: nat :: Entry(mm, r, c) == MassAt(mass, r, c)
    requires forall r: nat, c: nat :: kk.At(r, c) == StiffnessAt(s, Visits(edges, |s.pos|), r, c)
    ensures Dense(Combine(mm, kk.entries, -(h * h)), 3 * |s.pos|, 3 * |s.pos|) == NRMatrix(s, mass, edges, h)
  {
    var n := |s.pos|;
    var a := Combine(mm, kk.entries, -(h * h));
    forall r, c | 0 <= r < 3 * n && 0 <= c < 3 * n
      ensures NRMatrix(s, mass, edges, h)[r][c] == Entry(a, r, c)
    {
      assert Entry(kk.entries, r, c) == kk.At(r, c);
      NegatedProduct(h * h, StiffnessAt(s, Visits(edges, n), r, c));
    }
    SameDense(a, 3 * n, NRMatrix(s, mass, edges, h));
  }

  /** `(-a) x == -(a x)`. */
  lemma NegatedProduct(a: real, x: real)
    ensures -a * x == -(a * x)
  {
  }

  /** `b = M vt + h f` of `SimulateOnceNR`, with `f` the total forces and `M` the step's mass matrix. */
  method AssembleNRRhs(s: Springs, mass: seq<real>, massEntries: Entries, velocity: seq<Vec3>, fExt: seq<Vec3>, edges: EdgeList, h: real)
    returns (b: seq<real>)
    requires |mass| == |s.pos| && |velocity| == |s.pos| && |fExt| == |s.pos|
    requires forall r: nat, c: nat :: Entry(massEntries, r, c) == MassAt(mass, r, c)
    requires WellFormed(edges, |s.pos|) && Covers(s.rest, edges) && IsDistance(s.dist)
    ensures b == NRRhs(mass, velocity, TotalForces(s, fExt, edges), h)
  {
    var fTot := AssembleForces(s, fExt, edges);
    var f := PackVector(fTot);
    var vt := PackVector(velocity);
    var mv := MulVec(massEntries, vt);
    b := Axpy(mv, f, h);
    MassMulVec(massEntries, mass, vt);
  }
}
