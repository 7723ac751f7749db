/**
 * What one step of each integrator computes, as functions of the state it
 * starts from: the force totals, the linear system of `SimulateOnceNR` and
 * the state it writes back, and the iteration of `SimulateOnceMin` with its
 * right-hand side and residual. The sparse solver is an abstract function
 * that either fails or returns some vector.
 */
module Steps {
  import opened Vectors
  import opened Topology
  import opened Forces
  import opened Sparse
  import opened Layout
  import opened Stiffness

  // ---------------------------------------------------------------------------
  // The solver
  // ---------------------------------------------------------------------------

  /** What `SparseQR` reports: a failed decomposition, or the solution vector. */
  datatype Solution = Failed | Solved(x: seq<real>)

  /** A solver maps the dense coefficient matrix and the right-hand side to a solution. */
  type Solver = (seq<seq<real>>, seq<real>) -> Solution

  /** A solution has one component per component of the right-hand side. */
  ghost predicate SolverShape(solve: Solver) {
    forall a, b :: solve(a, b).Solved? ==> |solve(a, b).x| == |b|
  }

  /** A dense square matrix equal to `m` entry by entry is the dense view of `m`. */
  lemma SameDense(m: Entries, size: nat, d: seq<seq<real>>)
    requires |d| == size && forall r :: 0 <= r < size ==> |d[r]| == size
    requires forall r, c :: 0 <= r < size && 0 <= c < size ==> d[r][c] == Entry(m, r, c)
    ensures Dense(m, size, size) == d
  {
    var v := Dense(m, size, size);
    forall r | 0 <= r < size
      ensures v[r] == d[r]
    {
    }
  }

  // ---------------------------------------------------------------------------
  // Forces
  // ---------------------------------------------------------------------------

  /** The force of the edge `(i, j)` on `i`; zero where the per-edge terms are undefined. */
  function EdgeForce(s: Springs, i: nat, j: nat): Vec3 {
    if Defined(s, i, j) then CalcFint(s, i, j) else Zero
  }

  /** `fint_total` (or `tem`) after the loop over `js`: the forces of the edges `(i, j)`, `j` in `js`, added in order. */
  function ForceSum(s: Springs, i: nat, js: seq<nat>): Vec3 {
    if js == [] then Zero else Add(ForceSum(s, i, js[..|js| - 1]), EdgeForce(s, i, js[|js| - 1]))
  }

  /** The internal force on particle `i`: the forces of all edges at `i`. */
  function InternalForce(s: Springs, edges: EdgeList, i: nat): Vec3 {
    ForceSum(s, i, AdjV(edges, i))
  }

  /** `f_tot` in `SimulateOnceNR`: the external force plus the internal force, per particle. */
  function TotalForces(s: Springs, fExt: seq<Vec3>, edges: EdgeList): (f: seq<Vec3>)
    requires |fExt| == |s.pos|
    ensures |f| == |s.pos|
  {
    seq(|s.pos|, i requires 0 <= i < |s.pos| => Add(fExt[i], InternalForce(s, edges, i)))
  }

  /** A particle no edge touches feels only its external force. */
  lemma IsolatedParticle(s: Springs, fExt: seq<Vec3>, edges: EdgeList, i: nat)
    requires |fExt| == |s.pos| && i < |s.pos|
    requires forall k :: 0 <= k < EdgeCount(edges) ==> Src(edges, k) != i && Dst(edges, k) != i
    ensures TotalForces(s, fExt, edges)[i] == fExt[i]
  {
    NoNeighbours(edges, i, EdgeCount(edges));
  }

  lemma {:induction false} NoNeighbours(edges: EdgeList, i: nat, n: nat)
    requires n <= EdgeCount(edges)
    requires forall k :: 0 <= k < n ==> Src(edges, k) != i && Dst(edges, k) != i
    ensures AdjVUpTo(edges, i, n) == []
  {
    if n > 0 {
      NoNeighbours(edges, i, n - 1);
    }
  }

  // ---------------------------------------------------------------------------
  // SimulateOnceNR
  // ---------------------------------------------------------------------------

  /** Entry `(r, c)` of `A = M - h^2 K`. */
  function NRMatrixAt(s: Springs, mass: seq<real>, edges: EdgeList, h: real, r: nat, c: nat): real {
    MassAt(mass, r, c) - h * h * StiffnessAt(s, Visits(edges, |s.pos|), r, c)
  }

  /** The dense `A` of `n` particles. */
  function NRMatrix(s: Springs, mass: seq<real>, edges: EdgeList, h: real): (a: seq<seq<real>>)
    ensures |a| == 3 * |s.pos| && forall r :: 0 <= r < |a| ==> |a[r]| == |a|
    ensures forall r, c :: 0 <= r < |a| && 0 <= c < |a| ==> a[r][c] == NRMatrixAt(s, mass, edges, h, r, c)
  {
    var size := 3 * |s.pos|;
    seq(size, r requires 0 <= r < size => seq(size, c requires 0 <= c < size => NRMatrixAt(s, mass, edges, h, r, c)))
  }

  /** `A` is symmetric: `M` is diagonal and `K` is symmetric. */
  lemma NRMatrixSymmetric(s: Springs, mass: seq<real>, edges: EdgeList, h: real, r: nat, c: nat)
    ensures NRMatrixAt(s, mass, edges, h, r, c) == NRMatrixAt(s, mass, edges, h, c, r)
  {
    var vs := Visits(edges, |s.pos|);
    StiffnessSymmetric(s, vs, r, c);
    SameDifference(MassAt(mass, r, c), MassAt(mass, c, r), StiffnessAt(s, vs, r, c), StiffnessAt(s, vs, c, r), h);
  }

  lemma SameDifference(m1: real, m2: real, k1: real, k2: real, h: real)
    requires m1 == m2 && k1 == k2
    ensures m1 - h * h * k1 == m2 - h * h * k2
  {
  }

  /** `M v` for the diagonal mass matrix: component `r` scaled by the mass of particle `r / 3`. */
  function MassScale(mass: seq<real>, v: seq<real>): (w: seq<real>)
    requires |v| == 3 * |mass|
    ensures |w| == |v|
  {
    seq(|v|, r requires 0 <= r < |v| => mass[r / 3] * v[r])
  }

  /** `u + h v`, component by component. */
  function Axpy(u: seq<real>, v: seq<real>, h: real): (w: seq<real>)
    requires |u| == |v|
    ensures |w| == |u|
  {
    seq(|u|, r requires 0 <= r < |u| => u[r] + h * v[r])
  }

  /** `b = M vt + h f` with `vt` and `f` the packed velocities and total forces. */
  function NRRhs(mass: seq<real>, velocity: seq<Vec3>, fTot: seq<Vec3>, h: real): (b: seq<real>)
    requires |velocity| == |mass| && |fTot| == |mass|
    ensures |b| == 3 * |mass|
  {
    Axpy(MassScale(mass, Pack(velocity)), Pack(fTot), h)
  }

  /** Component `d` of particle `i` in `M v` is `mass[i]` times that component of `v`. */
  lemma MassScaleAt(mass: seq<real>, v: seq<real>, i: nat, d: nat)
    requires |v| == 3 * |mass| && i < |mass| && d < 3
    ensures MassScale(mass, v)[3 * i + d] == mass[i] * v[3 * i + d]
  {
    IndexOf(i, d);
  }

  /** Component `d` of particle `i` in `b` is `mass[i]` times its velocity plus `h` times its force. */
  lemma NRRhsAt(mass: seq<real>, velocity: seq<Vec3>, fTot: seq<Vec3>, h: real, i: nat, d: nat)
    requires |velocity| == |mass| && |fTot| == |mass| && i < |mass| && d < 3
    ensures NRRhs(mass, velocity, fTot, h)[3 * i + d] == mass[i] * velocity[i].At(d) + h * fTot[i].At(d)
  {
    MassScaleAt(mass, Pack(velocity), i, d);
    PackAt(velocity, i, d);
    PackAt(fTot, i, d);
  }

  /** The solve of `SimulateOnceNR` from positions `s.pos`, velocities `velocity` and external forces `fExt`. */
  ghost function NRSolve(solve: Solver, s: Springs, mass: seq<real>, velocity: seq<Vec3>, fExt: seq<Vec3>,
                         edges: EdgeList, h: real): (sol: Solution)
    requires |mass| == |s.pos| && |velocity| == |s.pos| && |fExt| == |s.pos| && SolverShape(solve)
    ensures sol.Solved? ==> |sol.x| == 3 * |s.pos|
  {
    solve(NRMatrix(s, mass, edges, h), NRRhs(mass, velocity, TotalForces(s, fExt, edges), h))
  }

  /** Multiplying by the sparse mass matrix is scaling by the masses. */
  lemma MassMulVec(m: Entries, mass: seq<real>, v: seq<real>)
    requires |v| == 3 * |mass|
    requires forall r: nat, c: nat :: Entry(m, r, c) == MassAt(mass, r, c)
    ensures MulVec(m, v) == MassScale(mass, v)
  {
    MulVecDiagonal(m, v);
    var mv, sv := MulVec(m, v), MassScale(mass, v);
    forall r | 0 <= r < |v|
      ensures mv[r] == sv[r]
    {
      assert Entry(m, r, r) == MassAt(mass, r, r);
    }
  }

  /** The particle at `p` moved for time `h` at velocity `v`: each component grows by `v[d] h`. */
  function Advance(p: Vec3, v: Vec3, h: real): (q: Vec3)
    ensures forall d :: 0 <= d < 3 ==> q.At(d) - p.At(d) == v.At(d) * h
  {
    Vec3(p.x + v.x * h, p.y + v.y * h, p.z + v.z * h)
  }

  // ---------------------------------------------------------------------------
  // SimulateOnceMin
  // ---------------------------------------------------------------------------

  /** The part of the rhs that does not depend on the edges: `-calcG(i, x) + mass[i] x` per particle. */
  function MinRhsBase(s: Springs, mass: seq<real>, calcG: (nat, Vec3) -> Vec3): (rhs: seq<Vec3>)
    requires |mass| == |s.pos|
    ensures |rhs| == |s.pos|
  {
    seq(|s.pos|, i requires 0 <= i < |s.pos| => Add(Neg(calcG(i, s.pos[i])), Scale(mass[i], s.pos[i])))
  }

  /**
   * What the edge `(vi, vj)` with block `B` and force `f` adds to the rhs:
   * `h^2 f - h^2 B x_vi` at `vi`, then `-h^2 f - h^2 B x_vj` at `vj`.
   */
  function MinRhsStep(s: Springs, h: real, prev: seq<Vec3>, vi: nat, vj: nat): (rhs: seq<Vec3>)
    requires vi < |prev| && vj < |prev| && |prev| == |s.pos|
    ensures |rhs| == |prev|
  {
    var hsn := MScale(h * h, VisitBlock(s, vi, vj));
    var hsf := Scale(h * h, EdgeForce(s, vi, vj));
    var mid := prev[vi := Add(prev[vi], Add(hsf, MatVec(MNeg(hsn), s.pos[vi])))];
    mid[vj := Add(mid[vj], Add(Neg(hsf), MatVec(MNeg(hsn), s.pos[vj])))]
  }

  /** The rhs after the first `n` edges have been added to `base`, in edge-list order. */
  function MinRhsUpTo(s: Springs, edges: EdgeList, h: real, base: seq<Vec3>, n: nat): (rhs: seq<Vec3>)
    requires |base| == |s.pos| && WellFormed(edges, |s.pos|) && n <= EdgeCount(edges)
    ensures |rhs| == |s.pos|
  {
    if n == 0 then base
    else MinRhsStep(s, h, MinRhsUpTo(s, edges, h, base, n - 1), Src(edges, n - 1), Dst(edges, n - 1))
  }

  /** The rhs of one iteration of `SimulateOnceMin`, per particle. */
  function MinRhs(s: Springs, mass: seq<real>, edges: EdgeList, h: real, calcG: (nat, Vec3) -> Vec3): (rhs: seq<Vec3>)
    requires |mass| == |s.pos| && WellFormed(edges, |s.pos|)
    ensures |rhs| == |s.pos|
  {
    MinRhsUpTo(s, edges, h, MinRhsBase(s, mass, calcG), EdgeCount(edges))
  }

  /** The rhs entry of a particle no edge touches is its edge-free part. */
  lemma {:induction false} MinRhsIsolated(s: Springs, edges: EdgeList, h: real, base: seq<Vec3>, n: nat, i: nat)
    requires |base| == |s.pos| && WellFormed(edges, |s.pos|) && n <= EdgeCount(edges) && i < |s.pos|
    requires forall k :: 0 <= k < n ==> Src(edges, k) != i && Dst(edges, k) != i
    ensures MinRhsUpTo(s, edges, h, base, n)[i] == base[i]
  {
    if n > 0 {
      MinRhsIsolated(s, edges, h, base, n - 1, i);
    }
  }

  /** The three components of particle `i` in a packed vector. */
  function Block(x: seq<real>, i: nat): Vec3
    requires 3 * i + 2 < |x|
  {
    Vec3(x[3 * i], x[3 * i + 1], x[3 * i + 2])
  }

  /** `g_mid` of particle `i`: `mass[i] (x_i - y) - h^2 fint_total`. */
  function GMid(s: Springs, mass: seq<real>, edges: EdgeList, h: real, y: Vec3, x: Vec3, i: nat): Vec3
    requires i < |mass|
  {
    Sub(Scale(mass[i], Sub(x, y)), Scale(h * h, InternalForce(s, edges, i)))
  }

  /** The `g_mid` of every particle, with `x_new` read in blocks of three. */
  function GMids(s: Springs, mass: seq<real>, edges: EdgeList, h: real, calcY: nat -> Vec3, xNew: seq<real>): (g: seq<Vec3>)
    requires |mass| == |s.pos| && |xNew| == 3 * |s.pos|
    ensures |g| == |s.pos|
    ensures forall i :: 0 <= i < |g| ==> g[i] == GMid(s, mass, edges, h, calcY(i), Block(xNew, i), i)
  {
    seq(|s.pos|, i requires 0 <= i < |s.pos| => GMid(s, mass, edges, h, calcY(i), Block(xNew, i), i))
  }

  /** `aggregated` in `calcResidual`: the packed `g_mid` of every particle. */
  function Aggregated(s: Springs, mass: seq<real>, edges: EdgeList, h: real, calcY: nat -> Vec3, xNew: seq<real>): (agg: seq<real>)
    requires |mass| == |s.pos| && |xNew| == 3 * |s.pos|
    ensures |agg| == |xNew|
  {
    Pack(GMids(s, mass, edges, h, calcY, xNew))
  }

  /**
   * `K_mat * v`: the selector keeps the first `n` components of `v` and
   * zeroes the rest, so only those reach the residual's norm.
   */
  lemma SelectorMulVec(sel: Entries, n: nat, v: seq<real>)
    requires forall r: nat, c: nat :: Entry(sel, r, c) == SelectorAt(n, r, c)
    ensures |MulVec(sel, v)| == |v|
    ensures forall r :: 0 <= r < |v| ==> MulVec(sel, v)[r] == if r < n then v[r] else 0.0
  {
    MulVecDiagonal(sel, v);
  }

  /** `calcResidual`: the norm of `K_mat` times the aggregated `g_mid`. */
  function Residual(sel: Entries, vecNorm: seq<real> -> real, s: Springs, mass: seq<real>, edges: EdgeList,
                    h: real, calcY: nat -> Vec3, xNew: seq<real>): real
    requires |mass| == |s.pos| && |xNew| == 3 * |s.pos|
  {
    vecNorm(MulVec(sel, Aggregated(s, mass, edges, h, calcY, xNew)))
  }

  /**
   * Only the first `n` components of the aggregated vector reach the
   * residual: two vectors that agree there have the same residual norm.
   */
  lemma SelectedResidual(sel: Entries, n: nat, vecNorm: seq<real> -> real, v: seq<real>, w: seq<real>)
    requires forall r: nat, c: nat :: Entry(sel, r, c) == SelectorAt(n, r, c)
    requires |v| == |w|
    requires forall r :: 0 <= r < n && r < |v| ==> v[r] == w[r]
    ensures vecNorm(MulVec(sel, v)) == vecNorm(MulVec(sel, w))
  {
    SelectorMulVec(sel, n, v);
    SelectorMulVec(sel, n, w);
    assert MulVec(sel, v) == MulVec(sel, w);
  }

  /** Everything one iteration of `SimulateOnceMin` reads besides the current positions. */
  datatype MinSystem = MinSystem(
    rest: map<(nat, nat), real>,
    stiff: real,
    dist: (Vec3, Vec3) -> real,
    mass: seq<real>,
    edges: EdgeList,
    h: real,
    calcG: (nat, Vec3) -> Vec3,
    calcY: nat -> Vec3,
    sel: Entries,
    vecNorm: seq<real> -> real,
    solve: Solver)

  /** The per-edge terms at positions `pos`. */
  function SpringsAt(ms: MinSystem, pos: seq<Vec3>): Springs {
    Springs(pos, ms.rest, ms.stiff, ms.dist)
  }

  ghost predicate MinReady(ms: MinSystem, n: nat) {
    |ms.mass| == n && WellFormed(ms.edges, n) && SolverShape(ms.solve)
  }

  /** The dense coefficient matrix of an iteration at positions `pos`. */
  function MinMatrix(ms: MinSystem, pos: seq<Vec3>): (a: seq<seq<real>>)
    ensures |a| == 3 * |pos| && forall r :: 0 <= r < |a| ==> |a[r]| == |a|
    ensures forall r, c :: 0 <= r < |a| && 0 <= c < |a| ==> a[r][c] == MinCoeffAt(SpringsAt(ms, pos), ms.mass, ms.edges, ms.h, r, c)
  {
    var size, s := 3 * |pos|, SpringsAt(ms, pos);
    seq(size, r requires 0 <= r < size => seq(size, c requires 0 <= c < size => MinCoeffAt(s, ms.mass, ms.edges, ms.h, r, c)))
  }

  /** `calcResidual(x_new, pos)` of the iteration at positions `pos`. */
  function MinResidual(ms: MinSystem, pos: seq<Vec3>, xNew: seq<real>): real
    requires |ms.mass| == |pos| && |xNew| == 3 * |pos|
  {
    Residual(ms.sel, ms.vecNorm, SpringsAt(ms, pos), ms.mass, ms.edges, ms.h, ms.calcY, xNew)
  }

  function Abs(x: real): real {
    if x < 0.0 then -x else x
  }

  /** One assembly and solve at positions `pos`. */
  ghost function MinSolve(ms: MinSystem, pos: seq<Vec3>): (sol: Solution)
    requires MinReady(ms, |pos|)
    ensures sol.Solved? ==> |sol.x| == 3 * |pos|
  {
    ms.solve(MinMatrix(ms, pos), Pack(MinRhs(SpringsAt(ms, pos), ms.mass, ms.edges, ms.h, ms.calcG)))
  }

  /**
   * What one round of the iteration yields: nothing when the decomposition
   * fails, otherwise the solution `x`, the positions `next` unpacked from it
   * and whether their residual is below `1e-3`.
   */
  datatype Round = NoSolution | Moved(x: seq<real>, next: seq<Vec3>, converged: bool)

  /** How the iteration of `SimulateOnceMin` ends. */
  datatype MinOutcome =
    | SolverFailed
    | Finished(pos: seq<Vec3>, iterations: nat, converged: bool)

  // ---------------------------------------------------------------------------
  // The iteration for any round
  // ---------------------------------------------------------------------------

  /**
   * The iterations from `iter` on, starting at positions `pos`, where
   * `round` performs one round: stop when a round has no solution;
   * otherwise move to its positions and stop once it converged or 50
   * iterations have run.
   */
  ghost function Rounds(round: seq<Vec3> -> Round, pos: seq<Vec3>, iter: nat): MinOutcome
    requires iter <= 50
    decreases 50 - iter
  {
    if iter == 50 then Finished(pos, iter, false)
    else
      match round(pos)
      case NoSolution => SolverFailed
      case Moved(_, next, converged) =>
        if converged then Finished(next, iter + 1, true) else Rounds(round, next, iter + 1)
  }

  /**
   * Round `m` (counted from one) of the rounds that start at `pos` and keep
   * moving to each round's positions; `NoSolution` once some round up to
   * `m` has none.
   */
  ghost function NthRound(round: seq<Vec3> -> Round, pos: seq<Vec3>, m: nat): Round
    requires 1 <= m
    decreases m
  {
    match round(pos)
    case NoSolution => NoSolution
    case Moved(_, next, _) => if m == 1 then round(pos) else NthRound(round, next, m - 1)
  }

  lemma {:induction false} RoundsBounded(round: seq<Vec3> -> Round, pos: seq<Vec3>, iter: nat)
    requires iter <= 50
    ensures var out := Rounds(round, pos, iter);
            out.Finished? ==> iter <= out.iterations <= 50
    decreases 50 - iter
  {
    if iter < 50 && round(pos).Moved? && !round(pos).converged {
      RoundsBounded(round, round(pos).next, iter + 1);
    }
  }

  lemma {:induction false} RoundsStops(round: seq<Vec3> -> Round, pos: seq<Vec3>, iter: nat)
    requires iter <= 50
    ensures var out := Rounds(round, pos, iter);
            out.Finished? ==>
              && (out.converged ==> iter < out.iterations)
              && (!out.converged ==> out.iterations == 50)
    decreases 50 - iter
  {
    if iter < 50 && round(pos).Moved? && !round(pos).converged {
      RoundsStops(round, round(pos).next, iter + 1);
    }
  }

  /** Every round's positions have the size of the positions it started from, so the iteration's do too. */
  lemma {:induction false} RoundsSize(round: seq<Vec3> -> Round, pos: seq<Vec3>, iter: nat)
    requires iter <= 50
    requires forall p :: round(p).Moved? ==> |round(p).next| == |p|
    ensures var out := Rounds(round, pos, iter);
            out.Finished? ==> |out.pos| == |pos|
    decreases 50 - iter
  {
    if iter < 50 && round(pos).Moved? && !round(pos).converged {
      RoundsSize(round, round(pos).next, iter + 1);
    }
  }

  /** Every converging round ends at positions with property `good`, so a converged iteration does too. */
  lemma {:induction false} RoundsConverged(round: seq<Vec3> -> Round, good: seq<Vec3> -> bool, pos: seq<Vec3>, iter: nat)
    requires iter <= 50
    requires forall p :: round(p).Moved? && round(p).converged ==> good(round(p).next)
    ensures var out := Rounds(round, pos, iter);
            out.Finished? && out.converged ==> good(out.pos)
    decreases 50 - iter
  {
    if iter < 50 && round(pos).Moved? && !round(pos).converged {
      RoundsConverged(round, good, round(pos).next, iter + 1);
    }
  }

  /**
   * A finished iteration stops at the first converging round: every round
   * before its last one solved and did not converge; and when it ran at
   * least one round it ends at its last round's positions, reporting
   * convergence exactly when that round converged.
   */
  lemma {:induction false} RoundsLast(round: seq<Vec3> -> Round, pos: seq<Vec3>, iter: nat)
    requires iter <= 50
    ensures var out := Rounds(round, pos, iter);
            out.Finished? ==>
              && iter <= out.iterations
              && (forall k :: 1 <= k < out.iterations - iter ==>
                    NthRound(round, pos, k).Moved? && !NthRound(round, pos, k).converged)
              && (iter < out.iterations ==>
                    && NthRound(round, pos, out.iterations - iter).Moved?
                    && out.pos == NthRound(round, pos, out.iterations - iter).next
                    && out.converged == NthRound(round, pos, out.iterations - iter).converged)
    decreases 50 - iter
  {
    if iter < 50 && round(pos).Moved? {
      assert NthRound(round, pos, 1) == round(pos);
      if !round(pos).converged {
        var next := round(pos).next;
        var inner := Rounds(round, next, iter + 1);
        assert Rounds(round, pos, iter) == inner;
        RoundsLast(round, next, iter + 1);
        RoundsStops(round, next, iter + 1);
        forall k | 2 <= k
          ensures NthRound(round, pos, k) == NthRound(round, next, k - 1)
        {
        }
        if inner.Finished? && iter + 1 < inner.iterations {
          var k := inner.iterations - iter;
          assert NthRound(round, pos, k) == NthRound(round, next, k - 1);
        }
      }
    }
  }

  /**
   * An iteration that runs out of rounds without converging ends at the
   * positions of its 50th round, which moved without converging.
   */
  lemma RoundsExhausted(round: seq<Vec3> -> Round, pos: seq<Vec3>, iter: nat)
    requires iter < 50
    ensures var out := Rounds(round, pos, iter);
            out.Finished? && !out.converged ==>
              && NthRound(round, pos, 50 - iter).Moved?
              && !NthRound(round, pos, 50 - iter).converged
              && out.pos == NthRound(round, pos, 50 - iter).next
  {
    RoundsLast(round, pos, iter);
    RoundsStops(round, pos, iter);
  }

  /** A property every round result has, the result of round `m` has too. */
  lemma {:induction false} NthRoundHolds(round: seq<Vec3> -> Round, ok: Round -> bool, pos: seq<Vec3>, m: nat)
    requires 1 <= m && ok(NoSolution)
    requires forall p :: ok(round(p))
    ensures ok(NthRound(round, pos, m))
    decreases m
  {
    if 1 < m && round(pos).Moved? {
      NthRoundHolds(round, ok, round(pos).next, m - 1);
    }
  }

  // ---------------------------------------------------------------------------
  // The iteration of `SimulateOnceMin`
  // ---------------------------------------------------------------------------

  /** One round at positions `pos`: assemble, solve, unpack and compute the residual. */
  ghost function MinRoundAt(ms: MinSystem, pos: seq<Vec3>): (r: Round)
    requires MinReady(ms, |pos|)
    ensures r.Moved? ==> |r.next| == |pos| && |r.x| == 3 * |pos|
  {
    match MinSolve(ms, pos)
    case Failed => NoSolution
    case Solved(x) =>
      var next := Unpack(x);
      Moved(x, next, Abs(MinResidual(ms, next, x)) < 0.001)
  }

  /** The round of `SimulateOnceMin` as a function of the positions. */
  ghost function MinRound(ms: MinSystem): seq<Vec3> -> Round {
    p => if MinReady(ms, |p|) then MinRoundAt(ms, p) else NoSolution
  }

  /**
   * The iterations from `iter` on, starting at positions `pos`: assemble and
   * solve; stop on a failed decomposition; otherwise take the solution as the
   * new positions and stop once the residual is below `1e-3` or 50
   * iterations have run.
   */
  ghost function MinIterate(ms: MinSystem, pos: seq<Vec3>, iter: nat): (out: MinOutcome)
    requires iter <= 50 && MinReady(ms, |pos|)
    ensures out.Finished? ==> |out.pos| == |pos|
  {
    MinRoundSize(ms);
    RoundsSize(MinRound(ms), pos, iter);
    Rounds(MinRound(ms), pos, iter)
  }

  /** A round of `SimulateOnceMin` keeps the number of particles. */
  lemma MinRoundSize(ms: MinSystem)
    ensures forall p :: MinRound(ms)(p).Moved? ==> |MinRound(ms)(p).next| == |p|
  {
    forall p | MinRound(ms)(p).Moved?
      ensures |MinRound(ms)(p).next| == |p|
    {
      assert MinReady(ms, |p|);
    }
  }

  /**
   * One round of the iteration, as the loop of `SimulateOnceMin` runs it:
   * a failed solve ends it; a solution whose residual is below `1e-3` ends
   * it converged one round later; any other solution becomes the positions
   * of the next round.
   */
  lemma MinIterateStep(ms: MinSystem, pos: seq<Vec3>, iter: nat)
    requires iter < 50 && MinReady(ms, |pos|)
    ensures MinIterate(ms, pos, iter) ==
              match MinSolve(ms, pos)
              case Failed => SolverFailed
              case Solved(x) =>
                if Abs(MinResidual(ms, Unpack(x), x)) < 0.001 then Finished(Unpack(x), iter + 1, true)
                else MinIterate(ms, Unpack(x), iter + 1)
  {
    assert MinRound(ms)(pos) == MinRoundAt(ms, pos);
  }

  /**
   * One round at positions `p` ends at its solution unpacked, for the same
   * number of particles, and converges exactly when the residual at those
   * positions is below `1e-3`.
   */
  lemma MinRoundMoves(ms: MinSystem, p: seq<Vec3>)
    requires MinReady(ms, |p|)
    ensures var r := MinRound(ms)(p);
            r.Moved? ==>
              && |r.x| == 3 * |p| && r.next == Unpack(r.x) && |r.next| == |p|
              && (r.converged <==> Abs(MinResidual(ms, r.next, Pack(r.next))) < 0.001)
  {
    var r := MinRound(ms)(p);
    assert r == MinRoundAt(ms, p);
    if r.Moved? {
      PackUnpack(r.x);
    }
  }

  /** When the iteration converges, the residual at the positions it ends at is below `1e-3`. */
  lemma MinIterateConverged(ms: MinSystem, pos: seq<Vec3>, iter: nat)
    requires iter <= 50 && MinReady(ms, |pos|)
    ensures var out := MinIterate(ms, pos, iter);
            out.Finished? && out.converged ==>
              |out.pos| == |pos| && Abs(MinResidual(ms, out.pos, Pack(out.pos))) < 0.001
  {
    var n := |pos|;
    var good := p => |p| == n && Abs(MinResidual(ms, p, Pack(p))) < 0.001;
    var round := MinRound(ms);
    forall p | round(p).Moved? && round(p).converged
      ensures good(round(p).next)
    {
      assert MinReady(ms, |p|);
      MinRoundMoves(ms, p);
    }
    RoundsConverged(round, good, pos, iter);
  }

  /** The positions each round of the iteration ends at are its solution unpacked. */
  lemma MinRoundUnpacks(ms: MinSystem, pos: seq<Vec3>, m: nat)
    requires 1 <= m
    ensures var r := NthRound(MinRound(ms), pos, m);
            r.Moved? ==> |r.x| % 3 == 0 && r.next == Unpack(r.x)
  {
    var ok := (r: Round) => r.Moved? ==> |r.x| % 3 == 0 && r.next == Unpack(r.x);
    forall p
      ensures ok(MinRound(ms)(p))
    {
      if MinReady(ms, |p|) {
        MinRoundMoves(ms, p);
      }
    }
    NthRoundHolds(MinRound(ms), ok, pos, m);
  }

  /** `(x_new - x) / h`, component by component. */
  function VelocityFrom(old_: Vec3, new_: Vec3, h: real): (v: Vec3)
    requires h != 0.0
    ensures Advance(old_, v, h) == new_
  {
    Vec3((new_.x - old_.x) / h, (new_.y - old_.y) / h, (new_.z - old_.z) / h)
  }

  /** The velocity of every particle that moves from `from` to `to` in time `h`. */
  function VelocitiesFrom(from: seq<Vec3>, to: seq<Vec3>, h: real): (v: seq<Vec3>)
    requires h != 0.0 && |from| == |to|
    ensures |v| == |from|
    ensures forall i :: 0 <= i < |v| ==> Advance(from[i], v[i], h) == to[i]
  {
    seq(|from|, i requires 0 <= i < |from| => VelocityFrom(from[i], to[i], h))
  }
}
