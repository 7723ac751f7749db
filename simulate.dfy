/**
 * The simulator object: its state (positions, velocities, masses, external
 * forces, the edge list, the rest-length index, the selector `K_mat`, the
 * time step, the stiffness and the clock) and the operations that change it.
 *
 * The Euclidean norm of a 3-vector difference, the norm of a long vector and
 * the sparse solver are fixed when the object is made; `calcG`, `calcY` and
 * `updateExtForce` are not part of this model, so their results arrive as
 * arguments.
 */
module Simulation {
  import opened Vectors
  import opened Topology
  import opened Forces
  import opened Sparse
  import opened Layout
  import opened Stiffness
  import opened Steps
  import opened Assembly

  class Simulate {
    const dist: (Vec3, Vec3) -> real
    const vecNorm: seq<real> -> real
    const solve: Solver

    var positions: seq<Vec3>
    var velocity: seq<Vec3>
    var mass: seq<real>
    var fExt: seq<Vec3>
    var edgelist: EdgeList
    var adjMap: map<(nat, nat), real>
    var kMat: SparseMatrix
    var h: real
    var stiff: real
    var currTime: real

    /** The state `Init` sets up and every step keeps. */
    ghost predicate Valid()
      reads this, kMat
    {
      var n := |positions|;
      && |velocity| == n && |mass| == n && |fExt| == n
      && WellFormed(edgelist, n) && Covers(adjMap, edgelist)
      && kMat.Valid() && kMat.rows == 3 * n && kMat.cols == 3 * n
      && (forall r: nat, c: nat :: kMat.At(r, c) == SelectorAt(n, r, c))
      && IsDistance(dist) && SolverShape(solve)
    }

    /** The per-edge terms at the current positions. */
    function Current(): Springs
      reads this
    {
      Springs(positions, adjMap, stiff, dist)
    }

    /** What one iteration of `SimulateOnceMin` reads besides the positions it iterates on. */
    function MinSystemOf(calcG: (nat, Vec3) -> Vec3, calcY: nat -> Vec3): MinSystem
      reads this, kMat
    {
      MinSystem(adjMap, stiff, dist, mass, edgelist, h, calcG, calcY, kMat.entries, vecNorm, solve)
    }

    /** A simulator over the given mesh, not yet initialised; the clock starts at zero. */
    constructor (positions: seq<Vec3>, edgelist: EdgeList, h: real, stiff: real,
                 dist: (Vec3, Vec3) -> real, vecNorm: seq<real> -> real, solve: Solver)
      ensures this.positions == positions && this.edgelist == edgelist
      ensures this.h == h && this.stiff == stiff && currTime == 0.0
      ensures this.dist == dist && this.vecNorm == vecNorm && this.solve == solve
      ensures velocity == [] && mass == [] && fExt == [] && adjMap == map[]
    {
      this.positions := positions;
      this.edgelist := edgelist;
      this.h := h;
      this.stiff := stiff;
      this.dist := dist;
      this.vecNorm := vecNorm;
      this.solve := solve;
      velocity := [];
      mass := [];
      fExt := [];
      adjMap := map[];
      kMat := new SparseMatrix(0, 0);
      currTime := 0.0;
    }

    /** `Clear()`: drops the positions and the velocities. */
    method Clear()
      modifies this
      ensures positions == [] && velocity == []
      ensures mass == old(mass) && fExt == old(fExt) && edgelist == old(edgelist) && adjMap == old(adjMap)
      ensures kMat == old(kMat) && h == old(h) && stiff == old(stiff) && currTime == old(currTime)
    {
      positions := [];
      velocity := [];
    }

    /**
     * `Init()`: zero velocities, unit masses, the external forces that
     * `updateExtForce` produces (`fExtNow`), the rest-length index of the
     * current positions and the selector; it always reports success.
     */
    method Init(fExtNow: seq<Vec3>) returns (ok: bool)
      requires WellFormed(edgelist, |positions|) && IsDistance(dist) && SolverShape(solve)
      requires |fExtNow| == |positions|
      modifies this
      ensures Valid() && ok
      ensures velocity == seq(|positions|, _ => Zero)
      ensures mass == seq(|positions|, _ => 1.0)
      ensures fExt == fExtNow
      ensures adjMap == RestLengths(edgelist, positions, dist)
      ensures positions == old(positions) && edgelist == old(edgelist)
      ensures h == old(h) && stiff == old(stiff) && currTime == old(currTime)
    {
      var n := |positions|;
      velocity := [];
      var i := 0;
      while i < n
        invariant 0 <= i <= n && velocity == seq(i, _ => Zero)
        invariant positions == old(positions) && edgelist == old(edgelist) && h == old(h) && stiff == old(stiff) && currTime == old(currTime)
      {
        velocity := velocity + [Zero];
        i := i + 1;
      }
      mass := [];
      fExt := fExtNow;
      i := 0;
      while i < n
        invariant 0 <= i <= n && mass == seq(i, _ => 1.0) && velocity == seq(n, _ => Zero) && fExt == fExtNow
        invariant positions == old(positions) && edgelist == old(edgelist) && h == old(h) && stiff == old(stiff) && currTime == old(currTime)
      {
        mass := mass + [1.0];
        i := i + 1;
      }
      adjMap := BuildRestLengths(edgelist, positions, dist);
      RestLengthsCover(edgelist, positions, dist);
      UpdateKMat();
      ok := true;
    }

    /** `updateKMat()`: a fresh 3N by 3N matrix with a one at `(i, i)` for each of the N particles. */
    method UpdateKMat()
      modifies this
      ensures fresh(kMat) && kMat.Valid()
      ensures kMat.rows == 3 * |positions| && kMat.cols == 3 * |positions|
      ensures forall r: nat, c: nat :: kMat.At(r, c) == SelectorAt(|positions|, r, c)
      ensures positions == old(positions) && velocity == old(velocity) && mass == old(mass)
      ensures fExt == old(fExt) && edgelist == old(edgelist) && adjMap == old(adjMap)
      ensures h == old(h) && stiff == old(stiff) && currTime == old(currTime)
    {
      var n := |positions|;
      var m := new SparseMatrix(3 * n, 3 * n);
      m.SetZero();
      var currentRow := 0;
      var i := 0;
      while i < n
        invariant 0 <= i <= n && currentRow == i && m.Valid()
        invariant forall key :: key in m.entries ==> key.0 < i
        invariant forall r: nat, c: nat :: m.At(r, c) == SelectorAt(i, r, c)
        invariant positions == old(positions) && velocity == old(velocity) && mass == old(mass)
        invariant fExt == old(fExt) && edgelist == old(edgelist) && adjMap == old(adjMap)
        invariant h == old(h) && stiff == old(stiff) && currTime == old(currTime)
      {
        label before:
        m.Insert(currentRow, i, 1.0);
        forall r: nat, c: nat
          ensures m.At(r, c) == SelectorAt(i + 1, r, c)
        {
          assert old@before(m.At(r, c)) == SelectorAt(i, r, c);
          if (r, c) != (i, i) {
            assert m.At(r, c) == old@before(m.At(r, c));
          }
        }
        currentRow := currentRow + 1;
        i := i + 1;
      }
      kMat := m;
    }

    /**
     * `Run()`: one implicit step, then the clock advances by `h` whatever
     * the step's outcome, and the external forces are refreshed
     * (`fExtNext`, what `updateExtForce` produces); it always reports success.
     */
    method Run(fExtNext: seq<Vec3>) returns (ok: bool)
      requires Valid() && |fExtNext| == |positions|
      modifies this
      ensures Valid() && ok
      ensures currTime == old(currTime) + old(h)
      ensures fExt == fExtNext
      ensures NRStepped(old(Current()), old(mass), old(velocity), old(fExt), old(edgelist), old(h), velocity, positions)
      ensures edgelist == old(edgelist) && adjMap == old(adjMap) && mass == old(mass) && h == old(h) && stiff == old(stiff)
    {
      SimulateOnceNR();
      currTime := currTime + h;
      fExt := fExtNext;
      ok := true;
    }

    /**
     * The outcome of one `SimulateOnceNR` from `s`: on a failed solve the
     * velocities and positions stay as they were; otherwise the velocities
     * are the solution and every position moves by its velocity times `h`.
     */
    ghost predicate NRStepped(s: Springs, mass: seq<real>, velocity: seq<Vec3>, fExt: seq<Vec3>, edges: EdgeList, h: real,
                              velocity': seq<Vec3>, positions': seq<Vec3>)
      requires |mass| == |s.pos| && |velocity| == |s.pos| && |fExt| == |s.pos|
    {
      SolverShape(solve) &&
      match NRSolve(solve, s, mass, velocity, fExt, edges, h)
      case Failed => velocity' == velocity && positions' == s.pos
      case Solved(x) =>
        && velocity' == Unpack(x)
        && positions' == seq(|s.pos|, i requires 0 <= i < |s.pos| => Advance(s.pos[i], velocity'[i], h))
    }

    /**
     * `SimulateOnceNR()`: assemble `A = M - h^2 K` and `b = M v + h f`,
     * solve `A v' = b`; on success write the velocities from the solution
     * and move every position by its new velocity times `h`.
     */
    method SimulateOnceNR()
      requires Valid()
      modifies this
      ensures Valid()
      ensures NRStepped(old(Current()), old(mass), old(velocity), old(fExt), old(edgelist), old(h), velocity, positions)
      ensures mass == old(mass) && fExt == old(fExt) && edgelist == old(edgelist) && adjMap == old(adjMap)
      ensures kMat == old(kMat) && h == old(h) && stiff == old(stiff) && currTime == old(currTime)
    {
      var n := |positions|;
      var s := Current();
      var mm := AssembleMass(mass);
      var a := AssembleNRMatrix(s, mass, mm, edgelist, h);
      var b := AssembleNRRhs(s, mass, mm, velocity, fExt, edgelist, h);
      var sol := solve(Dense(a, 3 * n, 3 * n), b);
      if sol.Failed? {
        return;
      }
      var nv := sol.x;
      var i := 0;
      while i < n
        invariant 0 <= i <= n && |velocity| == n && positions == s.pos
        invariant mass == old(mass) && fExt == old(fExt) && edgelist == old(edgelist) && adjMap == old(adjMap)
        invariant kMat == old(kMat) && h == old(h) && stiff == old(stiff) && currTime == old(currTime)
        invariant forall j :: 0 <= j < i ==> velocity[j] == Unpack(nv)[j]
      {
        velocity := velocity[i := Vec3(nv[3 * i], nv[3 * i + 1], nv[3 * i + 2])];
        i := i + 1;
      }
      assert velocity == Unpack(nv);
      i := 0;
      while i < n
        invariant 0 <= i <= n && |positions| == n && velocity == Unpack(nv)
        invariant mass == old(mass) && fExt == old(fExt) && edgelist == old(edgelist) && adjMap == old(adjMap)
        invariant kMat == old(kMat) && h == old(h) && stiff == old(stiff) && currTime == old(currTime)
        invariant forall j :: 0 <= j < i ==> positions[j] == Advance(s.pos[j], velocity[j], h)
        invariant forall j :: i <= j < n ==> positions[j] == s.pos[j]
      {
        positions := positions[i := Advance(positions[i], velocity[i], h)];
        i := i + 1;
      }
    }

    /**
     * `calcResidual(x_new, pos_step_k)`: the `g_mid` of every particle packed
     * into one vector, multiplied by `K_mat`, and its norm.
     */
    method CalcResidual(xNew: seq<real>, posStepK: seq<Vec3>, calcY: nat -> Vec3) returns (res: real)
      requires Valid() && |xNew| == 3 * |positions| && |posStepK| == |positions|
      ensures res == Residual(kMat.entries, vecNorm, Springs(posStepK, adjMap, stiff, dist), mass, edgelist, h, calcY, xNew)
    {
      var s := Springs(posStepK, adjMap, stiff, dist);
      var aggregated := AggregateResidual(s, mass, edgelist, h, calcY, xNew);
      var g := MulVec(kMat.entries, aggregated);
      res := vecNorm(g);
    }

    /**
     * One iteration of `SimulateOnceMin` at positions `positionsK`: assemble
     * into `coeff`, solve, and on success unpack the solution into the next
     * positions and compute their residual.
     */
    method IterateOnce(coeff: SparseMatrix, positionsK: seq<Vec3>, calcG: (nat, Vec3) -> Vec3, calcY: nat -> Vec3)
      returns (failed: bool, next: seq<Vec3>, residual: real)
      requires Valid() && coeff != kMat && |positionsK| == |positions|
      requires coeff.rows == 3 * |positions| && coeff.cols == 3 * |positions|
      modifies coeff
      ensures var sol := MinSolve(MinSystemOf(calcG, calcY), positionsK);
              && (failed <==> sol.Failed?)
              && (!failed ==> next == Unpack(sol.x) && residual == MinResidual(MinSystemOf(calcG, calcY), next, sol.x))
    {
      var n := |positions|;
      ghost var ms := MinSystemOf(calcG, calcY);
      var s := Springs(positionsK, adjMap, stiff, dist);
      var rhs := AssembleMinSystem(coeff, s, mass, edgelist, h, calcG);
      forall r, c | 0 <= r < 3 * n && 0 <= c < 3 * n
        ensures MinMatrix(ms, positionsK)[r][c] == Entry(coeff.entries, r, c)
      {
      }
      SameDense(coeff.entries, 3 * n, MinMatrix(ms, positionsK));
      var sol := solve(Dense(coeff.entries, 3 * n, 3 * n), Pack(rhs));
      assert sol == MinSolve(ms, positionsK);
      failed := sol.Failed?;
      next := positionsK;
      residual := 0.0;
      if failed {
        return;
      }
      var x := sol.x;
      var i := 0;
      while i < n
        invariant 0 <= i <= n && |next| == n
        invariant forall j :: 0 <= j < i ==> next[j] == Unpack(x)[j]
      {
        next := next[i := Vec3(x[3 * i], x[3 * i + 1], x[3 * i + 2])];
        i := i + 1;
      }
      assert next == Unpack(x);
      residual := CalcResidual(x, next, calcY);
    }

    /**
     * The iteration of `SimulateOnceMin`: at most 50 rounds of assemble,
     * solve and residual from the current positions into a fresh
     * coefficient matrix, stopping early once the residual is below 0.001.
     * It reports a failed solve, or the positions it ends at.
     */
    method IterateMin(calcG: (nat, Vec3) -> Vec3, calcY: nat -> Vec3) returns (failed: bool, finalPos: seq<Vec3>)
      requires Valid()
      ensures failed <==> MinIterate(MinSystemOf(calcG, calcY), positions, 0).SolverFailed?
      ensures !failed ==> MinIterate(MinSystemOf(calcG, calcY), positions, 0).Finished?
      ensures !failed ==> MinIterate(MinSystemOf(calcG, calcY), positions, 0).pos == finalPos
    {
      var n := |positions|;
      ghost var ms := MinSystemOf(calcG, calcY);
      var coeff := new SparseMatrix(3 * n, 3 * n);
      var positionsK := positions;
      var iter := 0;
      failed := false;
      while iter < 50
        invariant fresh(coeff) && ms == MinSystemOf(calcG, calcY)
        invariant 0 <= iter <= 50 && |positionsK| == n && MinReady(ms, n)
        invariant MinIterate(ms, positionsK, iter) == MinIterate(ms, positions, 0)
        invariant coeff.rows == 3 * n && coeff.cols == 3 * n && !failed
      {
        var next, residual;
        failed, next, residual := IterateOnce(coeff, positionsK, calcG, calcY);
        if failed {
          break;
        }
        positionsK := next;
        if Abs(residual) < 0.001 {
          break;
        }
        iter := iter + 1;
      }
      finalPos := positionsK;
    }

    /**
     * The end of a converged or exhausted `SimulateOnceMin`: every velocity
     * becomes the displacement to `finalPos` over `h`, then every position
     * becomes its entry of `finalPos`.
     */
    method MoveTo(finalPos: seq<Vec3>)
      requires Valid() && h != 0.0 && |finalPos| == |positions|
      modifies this
      ensures Valid()
      ensures positions == finalPos
      ensures velocity == VelocitiesFrom(old(positions), finalPos, old(h))
      ensures mass == old(mass) && fExt == old(fExt) && edgelist == old(edgelist) && adjMap == old(adjMap)
      ensures kMat == old(kMat) && h == old(h) && stiff == old(stiff) && currTime == old(currTime)
    {
      var n := |positions|;
      var i := 0;
      while i < n
        invariant mass == old(mass) && fExt == old(fExt) && edgelist == old(edgelist) && adjMap == old(adjMap)
        invariant kMat == old(kMat) && h == old(h) && stiff == old(stiff) && currTime == old(currTime)
        invariant 0 <= i <= n && |positions| == n && |velocity| == n
        invariant forall j :: 0 <= j < i ==> positions[j] == finalPos[j]
        invariant forall j :: 0 <= j < i ==> velocity[j] == VelocityFrom(old(positions)[j], finalPos[j], h)
        invariant forall j :: i <= j < n ==> positions[j] == old(positions)[j]
      {
        velocity := velocity[i := VelocityFrom(positions[i], finalPos[i], h)];
        positions := positions[i := finalPos[i]];
        i := i + 1;
      }
    }

    /**
     * `SimulateOnceMin()`: iterate from the current positions; on a failed
     * solve return with the state untouched; otherwise set every velocity to
     * the displacement over `h` and move to the positions the iteration ends at.
     */
    method SimulateOnceMin(calcG: (nat, Vec3) -> Vec3, calcY: nat -> Vec3)
      requires Valid() && h != 0.0
      modifies this
      ensures Valid()
      ensures var out := MinIterate(old(MinSystemOf(calcG, calcY)), old(positions), 0);
              && (out.SolverFailed? ==> positions == old(positions) && velocity == old(velocity))
              && (out.Finished? ==>
                    && positions == out.pos
                    && velocity == VelocitiesFrom(old(positions), out.pos, old(h)))
      ensures mass == old(mass) && fExt == old(fExt) && edgelist == old(edgelist) && adjMap == old(adjMap)
      ensures kMat == old(kMat) && h == old(h) && stiff == old(stiff) && currTime == old(currTime)
    {
      ghost var out := MinIterate(MinSystemOf(calcG, calcY), positions, 0);
      var failed, finalPos := IterateMin(calcG, calcY);
      if !failed {
        assert out.Finished? && |finalPos| == |positions|;
        MoveTo(finalPos);
      }
    }
  }
}
