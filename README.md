# Mass-spring simulator: a Dafny model of `Simulate`

This project models the bookkeeping of the `Simulate` class of the mesh
editor, a mass-spring simulator. The class holds a mesh made of particles
(positions, velocities and masses) joined by springs (a flat edge list). It
builds an index of rest lengths keyed by the canonical pair `(min, max)`. It
enumerates the neighbours of a particle with `getAdjV`, and it evaluates the
spring force `calcFint` and its 3x3 Jacobian block `calcNablaFintComponent`
for each edge. Two implicit integrators use them:

- `SimulateOnceNR` assembles `A = M - h^2 K` and `b = M v + h f`, solves for
  the new velocities, and moves every particle by its velocity times `h`;
- `SimulateOnceMin` iterates at most 50 times. Each round assembles a
  block-diagonal coefficient matrix and a right-hand side, solves for new
  positions, and measures a residual through the selector matrix `K_mat`.
  It stops early once the residual is below `1e-3`.

Everything is modelled over exact reals. The Euclidean distance between two
particles is an abstract function, required to be positive and symmetric.
The norm of a long vector is abstract too, and so is the sparse solver: it
either fails or returns some vector of the right length.

Modules, in dependency order:

- `Vectors`: 3-vectors and 3x3 matrices.
- `Topology`: the edge list, the rest-length index built by `Init` and read
  by `getOrigLen`, the adjacency enumeration of `getAdjV`, and the order in
  which the stiffness assembly visits pairs.
- `Forces`: `getK`, `calcFint` and `calcNablaFintComponent`, with their
  antisymmetry and symmetry.
- `Sparse`: sparse matrices as a class over a map from `(row, column)` to
  value, with `insert`, `coeffRef +=`, `setZero` and `SetBlock`.
- `Layout`: packing per-particle 3-vectors at index `3i + d` and unpacking
  them again.
- `Stiffness`: the matrices `M`, `K`, `K_mat` and the coefficient matrix of
  `SimulateOnceMin`, as functions of the state.
- `Steps`: what one step of each integrator computes, as functions: forces,
  the linear system, the state written back, and the iteration with its
  residual. The iteration is stated once for any round function
  (`Rounds`), and its properties are proved at that level. It is then
  driven by the round of `SimulateOnceMin` (`MinRound`). `MinIterateStep`
  shows that one round unfolds to the loop body as written.
- `Assembly`: the loops that assemble those systems, each proved against
  the function it builds.
- `Simulation`: the `Simulate` class, its state and the methods that change
  it.

Three behaviours of the code shape the model's contracts; "## Left out"
gives the details:

- `Run` advances `curr_time` by `h` whatever the outcome of
  `SimulateOnceNR` (line 62).
- Malformed topology is only `assert`ed, and no error value is returned: the
  edge list has even length (lines 40 and 238), no edge is a self-loop (line
  42), and `getOrigLen` asserts `i != j` (line 87) and a positive stored
  length (line 92). The model states these checks as preconditions
  (`WellFormed`, `Covers`, `Defined`), which every state satisfying `Valid`
  meets.
- Nothing guards against coincident particles; the code divides by the
  distance. The model requires the distance to be positive (`IsDistance`).

## Model

| member | source | states |
|---|---|---|
| Topology.Key | project/src/Engine/MeshEdit/Simulate.cpp:43-44 | the key of `{i, j}` is `(min(i, j), max(i, j))`: ordered, and made of exactly the two endpoints |
| Topology.KeyInjective | project/src/Engine/MeshEdit/Simulate.cpp:86-91 | two pairs share a key exactly when they are the same unordered pair, so `getOrigLen(i, j)` and `getOrigLen(j, i)` read one entry |
| Topology.BuildRestLengths | project/src/Engine/MeshEdit/Simulate.cpp:39-52 | the edge loop of `Init`, starting from a cleared map, builds exactly the index `RestLengths` of the edge list and the positions |
| Topology.RestLengthsUpToSpec | project/src/Engine/MeshEdit/Simulate.cpp:41-46 | after `n` edges the index has a key exactly for each canonical key of those edges, and each one maps to the distance between that edge's endpoints, in either orientation |
| Topology.RestLengthsKeysStep | project/src/Engine/MeshEdit/Simulate.cpp:43-46 | storing edge `n - 1` adds exactly its canonical key to the keys of the index |
| Topology.RestLengthsValuesStep | project/src/Engine/MeshEdit/Simulate.cpp:43-46 | after edge `n - 1` is stored, every edge so far still maps to its own length; a duplicate edge overwrites its key with the same length |
| Topology.RestLengthsCover | project/src/Engine/MeshEdit/Simulate.cpp:40-46 | the index `Init` builds has an entry for every listed edge, and that entry is positive |
| Topology.GetOrigLen | project/src/Engine/MeshEdit/Simulate.cpp:86-94 | given `i != j` and a positive stored entry under the canonical key (the two asserts), the rest length it returns is positive |
| Topology.LookupAfterInit | project/src/Engine/MeshEdit/Simulate.cpp:86-93 | after `Init`, `getOrigLen(a, b)` and `getOrigLen(b, a)` of any listed edge both give the distance between its endpoints' initial positions |
| Topology.RestLengths | project/src/Engine/MeshEdit/Simulate.cpp:39-52 | the contents of `adj_map` after `Init`: each edge in turn stored under its canonical key with the distance between its endpoints; `RestLengthsUpToSpec`, `RestLengthsCover` and `LookupAfterInit` pin down its keys and values |
| Topology.GetAdjV | project/src/Engine/MeshEdit/Simulate.cpp:128-140 | the `push_back` loop returns the other endpoint of every edge touching `vi`, in edge-list order |
| Topology.AdjV | project/src/Engine/MeshEdit/Simulate.cpp:128-140 | the list `getAdjV(v)` returns: for each edge in order, the other endpoint when one endpoint is `v`; `AdjVUpToMultiplicity`, `AdjVSymmetric` and `AdjVSound` pin down its contents |
| Topology.AdjStepMultiplicity | project/src/Engine/MeshEdit/Simulate.cpp:132-137 | one iteration of `getAdjV(v)` appends `w` once if edge `k` joins `v` and `w`, and never otherwise |
| Topology.AdjVUpToMultiplicity | project/src/Engine/MeshEdit/Simulate.cpp:131-138 | after `n` edges, `w` occurs among the neighbours of `v` exactly as many times as there are edges among those `n` joining `v` and `w` |
| Topology.JoiningUpToSymmetric | project/src/Engine/MeshEdit/Simulate.cpp:132-135 | the number of edges joining `a` and `b` equals the number joining `b` and `a` |
| Topology.JoiningUpToWitness | project/src/Engine/MeshEdit/Simulate.cpp:132-135 | a positive count of edges joining `a` and `b` has an edge that joins them |
| Topology.AdjVSymmetric | project/src/Engine/MeshEdit/Simulate.cpp:128-140 | `w` occurs in `getAdjV(v)` once per edge joining them, as often as `v` occurs in `getAdjV(w)`; so `w` is a neighbour of `v` if and only if `v` is a neighbour of `w` |
| Topology.AdjVSound | project/src/Engine/MeshEdit/Simulate.cpp:131-138 | every neighbour of `v` comes from a listed edge joining them; in a well-formed list it is a particle other than `v` |
| Topology.CountPositive | project/src/Engine/MeshEdit/Simulate.cpp:128-140 | an element occurs a positive number of times in a sequence exactly when it is in it, which links the counts above to membership |
| Topology.VisitsConcat | project/src/Engine/MeshEdit/Simulate.cpp:384-386 | the visit order of the stiffness loop is the concatenation, over particles `i` in order, of the pairs `(i, j)` for `j` in `getAdjV(i)` |
| Topology.PairsMultiplicity | project/src/Engine/MeshEdit/Simulate.cpp:385-386 | the pair `(a, b)` occurs among the pairs `(i, j)`, `j` in `js`, as often as `b` in `js` when `a == i`, and never otherwise |
| Topology.VisitPairsMultiplicity | project/src/Engine/MeshEdit/Simulate.cpp:385-386 | the visits of particle `i` contain `(i, b)` once per edge joining `i` and `b`, and no pair starting with another particle |
| Topology.VisitsMultiplicity | project/src/Engine/MeshEdit/Simulate.cpp:384-386 | over all particles below `n`, the pair `(a, b)` is visited once per edge joining `a` and `b`, and never when `a >= n` |
| Topology.VisitsSound | project/src/Engine/MeshEdit/Simulate.cpp:384-387 | every visited pair `(i, j)` of a well-formed edge list names two distinct particles joined by a listed edge |
| Forces.GetK | project/src/Engine/MeshEdit/Simulate.cpp:96-98 | every pair has the one global stiffness `stiff` |
| Forces.SpringForce | project/src/Engine/MeshEdit/Simulate.cpp:125 | `k (d - l) / d (x_j - x_i)` for stiffness `k`, rest length `l` and current length `d`; `SpringForceDirection` and `SpringForceAntisymmetric` pin it down |
| Forces.SpringForceDirection | project/src/Engine/MeshEdit/Simulate.cpp:125 | the force lies along `x_j - x_i`; it is zero at rest length and, for a positive stiffness, points toward `x_j` exactly when the spring is stretched |
| Forces.SpringJacobian | project/src/Engine/MeshEdit/Simulate.cpp:110-111 | the block `k (l/d - 1) I - k l / d^3 (x_i - x_j)(x_i - x_j)^T` is a symmetric 3x3 matrix |
| Forces.SpringForceAntisymmetric | project/src/Engine/MeshEdit/Simulate.cpp:125 | swapping the two ends of a spring negates its force |
| Forces.SpringJacobianSwap | project/src/Engine/MeshEdit/Simulate.cpp:110-111 | swapping the two ends of a spring leaves its Jacobian block unchanged |
| Forces.CalcFint | project/src/Engine/MeshEdit/Simulate.cpp:117-126 | `calcFint(i, j)`: the spring force with `getK`, `getOrigLen` and the distance of the two current positions; `FintAntisymmetric` states the assert at line 260 about it |
| Forces.CalcNablaFintComponent | project/src/Engine/MeshEdit/Simulate.cpp:102-114 | `calcNablaFintComponent(i, j)`: the spring Jacobian with `getK`, `getOrigLen` and the distance of the two positions; `SpringJacobian` makes it symmetric and `NablaFintSwap` states the assert at line 246 |
| Forces.FintAntisymmetric | project/src/Engine/MeshEdit/Simulate.cpp:260 | the assert `calcFint(vi, vj) == -calcFint(vj, vi)` holds for every edge whose terms are defined, and the terms of `(vj, vi)` are defined too |
| Forces.NablaFintSwap | project/src/Engine/MeshEdit/Simulate.cpp:246 | the assert `calcNablaFintComponent(vi, vj) == calcNablaFintComponent(vj, vi)` holds for every edge whose terms are defined |
| Forces.EdgeDefined | project/src/Engine/MeshEdit/Simulate.cpp:241-243 | in a well-formed system whose index covers the edges, the terms of every edge are defined in both orientations, so the assert at line 243 holds |
| Forces.AdjacentDefined | project/src/Engine/MeshEdit/Simulate.cpp:358-361 | the terms of `(i, j)` are defined for every `j` that `getAdjV(i)` yields |
| Layout.Pack | project/src/Engine/MeshEdit/Simulate.cpp:367-372 | packs per-particle vectors into a vector of length `3N`; `PackAt` places component `d` of particle `i` at `3i + d`, and `UnpackPack` and `PackUnpack` make it inverse to `Unpack` |
| Layout.PackAt | project/src/Engine/MeshEdit/Simulate.cpp:367-372 | index `3i + d` of a packed vector holds component `d` of particle `i` (`f(3i+d) == f_tot[i][d]`, `vt(3i+d) == velocity[i][d]`) |
| Layout.Unpack | project/src/Engine/MeshEdit/Simulate.cpp:420-423 | unpacking a vector of length `3N` gives `N` particles with `v[i][d] == nv(3i + d)` |
| Layout.UnpackPack | project/src/Engine/MeshEdit/Simulate.cpp:367-372 | unpacking a packed vector gives back the per-particle vectors |
| Layout.PackUnpack | project/src/Engine/MeshEdit/Simulate.cpp:300-303 | packing an unpacked vector gives back the vector |
| Layout.PackVector | project/src/Engine/MeshEdit/Simulate.cpp:400-405 | the three-assignments-per-particle loop fills exactly the packed vector |
| Sparse.Dense | project/src/Engine/MeshEdit/Simulate.cpp:412 | the dense view the solver sees has the stated size and reads every unstored position as zero |
| Sparse.Combine | project/src/Engine/MeshEdit/Simulate.cpp:397 | `A + s B` holds `A(i, j) + s B(i, j)` at every position and stays inside the bounds of its operands |
| Sparse.MulVec | project/src/Engine/MeshEdit/Simulate.cpp:170 | the product of a square sparse matrix with `v` has one component per component of `v`, each a row product |
| Sparse.RowDotDiagonal | project/src/Engine/MeshEdit/Simulate.cpp:406 | a row with nothing off the diagonal contributes only its diagonal entry times the matching component |
| Sparse.MulVecDiagonal | project/src/Engine/MeshEdit/Simulate.cpp:406 | a matrix that is zero off the diagonal scales `v` component by component |
| Sparse.SparseMatrix.constructor | project/src/Engine/MeshEdit/Simulate.cpp:375 | a new `rows` by `cols` matrix stores nothing, so reads as zero everywhere |
| Sparse.SparseMatrix.SetZero | project/src/Engine/MeshEdit/Simulate.cpp:74 | `setZero()` drops every stored entry |
| Sparse.SparseMatrix.Insert | project/src/Engine/MeshEdit/Simulate.cpp:377-379 | `insert(i, j) = v` on a position with nothing stored stores `v` there and changes nothing else |
| Sparse.SparseMatrix.AddAt | project/src/Engine/MeshEdit/Simulate.cpp:336 | `coeffRef(i, j) += v` stores the old value plus `v` at `(i, j)` and changes nothing else |
| Sparse.SetBlock | project/src/Engine/MeshEdit/Simulate.cpp:332-339 | every entry in rows `[si, si + r)` and columns `[sj, sj + c)` grows by `b(i - si, j - sj)`; every other entry is unchanged |
| Stiffness.MassAt | project/src/Engine/MeshEdit/Simulate.cpp:375-381 | entry `(r, c)` of `M`: `mass[r / 3]` on the diagonal and zero elsewhere; `InsertMass` builds it and `MassMulVec` shows `M v` scales by the masses |
| Stiffness.SelectorAt | project/src/Engine/MeshEdit/Simulate.cpp:68-83 | entry `(r, c)` of `K_mat`: one when `r == c` and `r < N`, zero otherwise; `UpdateKMat` builds it and `SelectorMulVec` and `SelectedResidual` state what it keeps |
| Stiffness.StiffnessAt | project/src/Engine/MeshEdit/Simulate.cpp:383-394 | entry `(r, c)` of `K` after a sequence of visits, each adding its four-block pattern; `StiffnessSymmetric`, `StiffnessRowSumZero` and `StiffnessVisitsEachEdgeTwice` pin it down |
| Stiffness.VisitContrib | project/src/Engine/MeshEdit/Simulate.cpp:389-392 | what one visit `(i, j)` adds at `(r, c)`: `Kii` in blocks `(i, i)` and `(j, j)`, `-Kii` in `(i, j)` and `(j, i)`; `StiffnessSnoc`, `StiffnessSymmetric` and `VisitRowSumValue` are about it, and `Assembly.AddVisit` performs it |
| Stiffness.VisitBlock | project/src/Engine/MeshEdit/Simulate.cpp:387 | the block a visit adds is symmetric |
| Stiffness.StiffnessSnoc | project/src/Engine/MeshEdit/Simulate.cpp:386-393 | one more visit adds exactly its four-block pattern to `K` |
| Stiffness.StiffnessSymmetric | project/src/Engine/MeshEdit/Simulate.cpp:383-394 | `K` is symmetric after any sequence of visits |
| Stiffness.VisitRowSumValue | project/src/Engine/MeshEdit/Simulate.cpp:389-392 | summed over the block columns below `n`, one visit adds row `r % 3` of `Kii` for each of its diagonal blocks `(i, i)`, `(j, j)` that row `r` meets, and subtracts it for each of its blocks `(i, j)`, `(j, i)` that row `r` meets |
| Stiffness.StiffnessRowSumZero | project/src/Engine/MeshEdit/Simulate.cpp:383-394 | every block row of `K` sums to zero: for each row and component, the entries over all particles' columns add up to zero |
| Stiffness.StiffnessRowSumZeroOfEdges | project/src/Engine/MeshEdit/Simulate.cpp:383-394 | for the visits a well-formed edge list yields, as `SimulateOnceNR` assembles `K`, every block row of `K` sums to zero |
| Stiffness.StiffnessVisitsEachEdgeTwice | project/src/Engine/MeshEdit/Simulate.cpp:384-386 | in a well-formed edge list, both `(a, b)` and `(b, a)` are visited once per edge joining `a` and `b`, so each edge's block enters `K` twice |
| Stiffness.MinEdgeContrib | project/src/Engine/MeshEdit/Simulate.cpp:249-255 | what one edge `(vi, vj)` adds to the coefficient matrix at `(r, c)`: `-h^2 B` in the diagonal blocks of both endpoints; `MinEdgeContribShape` shows it is block diagonal and symmetric and `Assembly.AddMinEdge` performs it |
| Stiffness.MinEdgesAt | project/src/Engine/MeshEdit/Simulate.cpp:239-255 | the coefficient terms of the first `n` edges, added in edge-list order; `MinEdgesShape` shows them block diagonal and symmetric and `Assembly.AddEdgeTerms` adds exactly these |
| Stiffness.MinCoeffAt | project/src/Engine/MeshEdit/Simulate.cpp:218-255 | entry `(r, c)` of `coeff_mat`: the mass entry plus the terms of every edge; `MinCoeffShape` shows the matrix is block diagonal and symmetric |
| Stiffness.MinEdgeContribShape | project/src/Engine/MeshEdit/Simulate.cpp:249-255 | one edge's terms in `SimulateOnceMin` reach only the diagonal blocks and are symmetric |
| Stiffness.MinEdgesShape | project/src/Engine/MeshEdit/Simulate.cpp:239-255 | the edge terms of any number of edges are zero off the diagonal blocks and symmetric |
| Stiffness.MinCoeffShape | project/src/Engine/MeshEdit/Simulate.cpp:218-255 | the coefficient matrix of `SimulateOnceMin` is block diagonal and symmetric, so it does not couple particles |
| Steps.EdgeForce | project/src/Engine/MeshEdit/Simulate.cpp:361 | the force one listed neighbour `j` exerts on particle `i`: `calcFint(i, j)` when the pair has a stored rest length; `Forces.FintAntisymmetric` shows it is the negation of the force the other way round |
| Steps.ForceSum | project/src/Engine/MeshEdit/Simulate.cpp:359-362 | `tem` after the loop over the listed neighbours `js`: their forces added in list order; `Assembly.SumAdjacentForces` runs that loop and ends with exactly this sum |
| Steps.InternalForce | project/src/Engine/MeshEdit/Simulate.cpp:357-362 | the internal force on particle `i`: the forces of the neighbours `getAdjV(i)` lists; `Assembly.SumAdjacentForces` computes it and `IsolatedParticle` shows it vanishes for a particle no edge touches |
| Steps.IsolatedParticle | project/src/Engine/MeshEdit/Simulate.cpp:354-364 | a particle that no edge touches has total force equal to its external force |
| Steps.TotalForces | project/src/Engine/MeshEdit/Simulate.cpp:352-365 | `f_tot`: one entry per particle, its external force plus the forces of the edges `getAdjV` lists; `IsolatedParticle` shows an untouched particle keeps its external force |
| Steps.NoNeighbours | project/src/Engine/MeshEdit/Simulate.cpp:131-138 | `getAdjV` of a particle that no edge touches is empty |
| Steps.NRMatrix | project/src/Engine/MeshEdit/Simulate.cpp:397 | the dense `A` is `3N` by `3N` with entry `(r, c)` equal to `M(r, c) - h^2 K(r, c)` |
| Steps.NRMatrixAt | project/src/Engine/MeshEdit/Simulate.cpp:397 | entry `(r, c)` of `A = M - h^2 K`; `NRMatrixSymmetric` shows `A` is symmetric and `Assembly.AssembleNRMatrix` that the sparse assembly yields exactly these entries |
| Steps.NRMatrixSymmetric | project/src/Engine/MeshEdit/Simulate.cpp:397 | `A = M - h^2 K` is symmetric |
| Steps.NRRhs | project/src/Engine/MeshEdit/Simulate.cpp:399-406 | `b = M vt + h f` with `vt` and `f` the packed velocities and total forces; `NRRhsAt` states each component and `Assembly.AssembleNRRhs` that the assembly yields exactly this vector |
| Steps.MassScaleAt | project/src/Engine/MeshEdit/Simulate.cpp:406 | component `3i + d` of `M v` is `mass[i]` times that component of `v` |
| Steps.NRRhsAt | project/src/Engine/MeshEdit/Simulate.cpp:399-406 | component `3i + d` of `b` is `mass[i] * velocity[i][d] + h * f_tot[i][d]` |
| Steps.MassMulVec | project/src/Engine/MeshEdit/Simulate.cpp:375-380 | multiplying by the sparse mass matrix scales every component by the mass of its particle |
| Steps.NRSolve | project/src/Engine/MeshEdit/Simulate.cpp:411-417 | a successful solve of `A v = b` returns one component per unknown |
| Steps.Advance | project/src/Engine/MeshEdit/Simulate.cpp:426-429 | every component of the new position exceeds the old by exactly `v[d] * h` |
| Steps.MinRhsStep | project/src/Engine/MeshEdit/Simulate.cpp:264-265 | one edge `(vi, vj)` adds `h^2 f - h^2 B x_vi` to the entry of `vi` and `-h^2 f - h^2 B x_vj` to that of `vj`, leaving every other entry alone; `Assembly.AddMinEdgeTerms` performs exactly this update |
| Steps.MinRhsIsolated | project/src/Engine/MeshEdit/Simulate.cpp:239-266 | the rhs entry of a particle that no edge touches keeps its edge-free value |
| Steps.MinRhs | project/src/Engine/MeshEdit/Simulate.cpp:219-266 | `rhs_vec` of one iteration, per particle: the edge-free part `-calcG(i, x) + mass[i] x`, then every edge's terms in edge-list order; `MinRhsIsolated` shows a particle no edge touches keeps the edge-free part |
| Steps.GMid | project/src/Engine/MeshEdit/Simulate.cpp:163 | `g_mid = m (x_new - y) - h^2 fint_total` of particle `i`; `Assembly.ComputeGMid` computes exactly this vector |
| Steps.GMids | project/src/Engine/MeshEdit/Simulate.cpp:149-163 | entry `i` is `g_mid` of particle `i`, with `x_new` read at `3i`, `3i + 1`, `3i + 2` |
| Steps.Aggregated | project/src/Engine/MeshEdit/Simulate.cpp:147-168 | `aggregated`: the `g_mid` of particle `i` at components `3i`, `3i + 1`, `3i + 2`; `Assembly.AggregatedFromBlocks` and `Assembly.AggregateResidual` show the loop fills exactly this vector |
| Steps.SelectorMulVec | project/src/Engine/MeshEdit/Simulate.cpp:170 | `K_mat * v` keeps the first `N` components of `v` and zeroes the rest |
| Steps.Residual | project/src/Engine/MeshEdit/Simulate.cpp:143-172 | `calcResidual`: the norm of `K_mat` times the packed `g_mid` of every particle; `SelectedResidual` shows only the first `N` components matter |
| Steps.SelectedResidual | project/src/Engine/MeshEdit/Simulate.cpp:170-171 | two aggregated vectors that agree on their first `N` components have the same residual norm |
| Steps.MinMatrix | project/src/Engine/MeshEdit/Simulate.cpp:218-266 | the dense coefficient matrix of an iteration is `3N` by `3N` with entry `(r, c)` equal to `M(r, c)` plus the edge terms |
| Steps.MinSolve | project/src/Engine/MeshEdit/Simulate.cpp:279-288 | a successful solve of one iteration returns one component per unknown |
| Steps.MinResidual | project/src/Engine/MeshEdit/Simulate.cpp:314 | the residual `calcResidual(x_vec, positions_k)` of a round, read at the unpacked positions; `MinRoundMoves` and `MinIterateConverged` relate it to the `1e-3` test |
| Steps.Rounds | project/src/Engine/MeshEdit/Simulate.cpp:215-322 | at most 50 rounds from `iter`: stop on a round without solution, move to each round's positions, stop once a round converged; `RoundsBounded`, `RoundsStops`, `RoundsLast` and `RoundsExhausted` are about it |
| Steps.NthRound | project/src/Engine/MeshEdit/Simulate.cpp:215-322 | round `m` of the rounds that start at `pos` and move on to each round's positions; `RoundsLast` and `RoundsExhausted` name the rounds an iteration ran |
| Steps.RoundsSize | project/src/Engine/MeshEdit/Simulate.cpp:300-303 | if every round keeps the number of particles, so does the whole iteration |
| Steps.RoundsConverged | project/src/Engine/MeshEdit/Simulate.cpp:319-321 | if every converging round ends at positions with a property, so does every converged iteration |
| Steps.RoundsLast | project/src/Engine/MeshEdit/Simulate.cpp:215-321 | the iteration stops at the first converging round: every earlier round solved and did not converge, and an iteration that ran at least one round ends at its last round's positions, reporting convergence exactly when that round converged |
| Steps.RoundsExhausted | project/src/Engine/MeshEdit/Simulate.cpp:215-322 | an iteration that ends without converging ends at the positions of its 50th round, which solved and did not converge |
| Steps.MinRoundAt | project/src/Engine/MeshEdit/Simulate.cpp:270-319 | one round: on a successful solve, the solution has one component per unknown, and the next positions keep the number of particles |
| Steps.MinRound | project/src/Engine/MeshEdit/Simulate.cpp:270-319 | the round of `SimulateOnceMin` as a function of the positions; `MinRoundMoves` states what it yields |
| Steps.MinIterate | project/src/Engine/MeshEdit/Simulate.cpp:215-322 | the iteration of `SimulateOnceMin` is the general iteration `Rounds` driven by the round `MinRound`; it reports a failed solve or ends at positions for the same number of particles |
| Steps.MinIterateStep | project/src/Engine/MeshEdit/Simulate.cpp:215-321 | one round of `MinIterate` is the loop body as written: a failed solve ends it, a residual below `1e-3` ends it converged, and otherwise the unpacked solution is the next round's positions |
| Steps.MinRoundMoves | project/src/Engine/MeshEdit/Simulate.cpp:300-319 | a round that solves ends at its solution unpacked, for the same particles, and converges exactly when the residual there is below `1e-3` |
| Steps.MinRoundUnpacks | project/src/Engine/MeshEdit/Simulate.cpp:300-303 | the positions every round of the iteration ends at are its solution unpacked |
| Steps.RoundsBounded | project/src/Engine/MeshEdit/Simulate.cpp:215 | an iteration that finishes has counted at most 50 rounds in all, and no fewer than it started with |
| Steps.RoundsStops | project/src/Engine/MeshEdit/Simulate.cpp:215-321 | a finished iteration that did not converge ran exactly 50 rounds; one that converged did so after at least one more round |
| Steps.MinIterateConverged | project/src/Engine/MeshEdit/Simulate.cpp:319-321 | when it converges, the residual at the positions it ends at is below `1e-3` |
| Steps.VelocityFrom | project/src/Engine/MeshEdit/Simulate.cpp:326 | `(x_new - x) / h` is the velocity that moves `x` to `x_new` in time `h` |
| Steps.VelocitiesFrom | project/src/Engine/MeshEdit/Simulate.cpp:325-328 | every particle's new velocity moves it from its old position to its new one in time `h` |
| Assembly.SumAdjacentForces | project/src/Engine/MeshEdit/Simulate.cpp:357-362 | the loop over `getAdjV(i)` sums to the internal force on `i` |
| Assembly.AssembleForces | project/src/Engine/MeshEdit/Simulate.cpp:352-365 | `f_tot` is the external force plus the internal force of every particle |
| Assembly.InsertMass | project/src/Engine/MeshEdit/Simulate.cpp:376-380 | after the loop, `M` has `mass[i]` at `(3i + d, 3i + d)` and zero everywhere else |
| Assembly.AddVisit | project/src/Engine/MeshEdit/Simulate.cpp:387-392 | the four `SetBlock` calls add `Kii` to blocks `(i, i)` and `(j, j)` and `-Kii` to blocks `(i, j)` and `(j, i)`, and nothing elsewhere |
| Assembly.AddVisitsOf | project/src/Engine/MeshEdit/Simulate.cpp:385-393 | the inner loop adds the visits of particle `i`, in the order of `getAdjV(i)` |
| Assembly.AssembleStiffness | project/src/Engine/MeshEdit/Simulate.cpp:383-394 | the double loop builds exactly the `K` of the visit order |
| Assembly.AddMinEdge | project/src/Engine/MeshEdit/Simulate.cpp:249-255 | the double loop adds `-hsn(d, e)` to entry `(d, e)` of blocks `(vi, vi)` and `(vj, vj)`, and nothing elsewhere |
| Assembly.AssembleMinSystem | project/src/Engine/MeshEdit/Simulate.cpp:218-266 | one iteration's `coeff_mat` is exactly the coefficient matrix and its rhs exactly `MinRhs` |
| Assembly.AddEdgeTerms | project/src/Engine/MeshEdit/Simulate.cpp:238-266 | the edge loop adds every edge's terms, in edge-list order, to the matrix and to the rhs |
| Assembly.AddMinEdgeTerms | project/src/Engine/MeshEdit/Simulate.cpp:241-265 | one edge adds `-h^2 B` to both diagonal blocks and `h^2 f - h^2 B x_vi`, `-h^2 f - h^2 B x_vj` to the rhs; the asserts at lines 243, 246 and 260 hold |
| Assembly.AggregateResidual | project/src/Engine/MeshEdit/Simulate.cpp:147-168 | the loop of `calcResidual` writes exactly the packed `g_mid` of every particle |
| Assembly.WriteBlock | project/src/Engine/MeshEdit/Simulate.cpp:165-167 | the three assignments set components `3i`, `3i + 1`, `3i + 2` and leave every other component unchanged |
| Assembly.AggregatedFromBlocks | project/src/Engine/MeshEdit/Simulate.cpp:163-167 | a vector holding every particle's `g_mid` in its three components is the aggregated vector |
| Assembly.ComputeGMid | project/src/Engine/MeshEdit/Simulate.cpp:150-163 | one particle's `g_mid` is `mass[i] (x_new_i - y) - h^2 fint_total` |
| Assembly.AssembleMass | project/src/Engine/MeshEdit/Simulate.cpp:374-380 | the mass matrix `M` built once per step: `mass[i]` at `(3i + d, 3i + d)` and zero elsewhere |
| Assembly.AssembleNRMatrix | project/src/Engine/MeshEdit/Simulate.cpp:382-397 | given the step's `M`, the sparse `M - h^2 K`, read densely, is exactly the dense `A` of the step |
| Assembly.NRMatrixFromParts | project/src/Engine/MeshEdit/Simulate.cpp:397 | sparse `M` and `K` holding the mass and stiffness matrices combine into `A` |
| Assembly.AssembleNRRhs | project/src/Engine/MeshEdit/Simulate.cpp:399-406 | given the same `M`, `b = M vt + h f` is exactly the right-hand side of the step |
| Simulation.Simulate.Clear | project/src/Engine/MeshEdit/Simulate.cpp:13-16 | positions and velocities become empty; nothing else changes |
| Simulation.Simulate.Init | project/src/Engine/MeshEdit/Simulate.cpp:18-57 | velocities all zero, masses all one, external forces refreshed, the rest-length index of the current positions, the selector built; the state becomes valid and `true` is returned |
| Simulation.Simulate.UpdateKMat | project/src/Engine/MeshEdit/Simulate.cpp:68-83 | a fresh `3N` by `3N` matrix whose entry `(r, c)` is one exactly when `r == c` and `r < N`; nothing else changes |
| Simulation.Simulate.Run | project/src/Engine/MeshEdit/Simulate.cpp:59-66 | one implicit step, then the clock advances by exactly `h` and the external forces are refreshed; always `true`, and the state stays valid |
| Simulation.Simulate.NRStepped | project/src/Engine/MeshEdit/Simulate.cpp:413-429 | the state after `SimulateOnceNR`: unchanged on a failed decomposition, otherwise velocities equal to the unpacked solution and positions advanced by velocity times `h`; the `SimulateOnceNR` and `Run` contracts are stated with it |
| Simulation.Simulate.SimulateOnceNR | project/src/Engine/MeshEdit/Simulate.cpp:341-430 | on a failed solve positions and velocities are unchanged; otherwise the velocities are the unpacked solution of `A v = b` and every position moves by velocity times `h`; the rest of the state is unchanged and stays valid |
| Simulation.Simulate.CalcResidual | project/src/Engine/MeshEdit/Simulate.cpp:143-172 | the result is the norm of `K_mat` times the aggregated `g_mid` |
| Simulation.Simulate.IterateOnce | project/src/Engine/MeshEdit/Simulate.cpp:218-317 | one round fails exactly when the solve fails; otherwise it yields the unpacked solution and its residual |
| Simulation.Simulate.IterateMin | project/src/Engine/MeshEdit/Simulate.cpp:213-322 | the loop reports a failed solve exactly when the iteration does, and otherwise ends at the positions the iteration ends at |
| Simulation.Simulate.MoveTo | project/src/Engine/MeshEdit/Simulate.cpp:324-328 | every velocity becomes the displacement to the final positions over `h`, then the positions become the final positions |
| Simulation.Simulate.SimulateOnceMin | project/src/Engine/MeshEdit/Simulate.cpp:176-330 | on a failed solve positions and velocities are unchanged; otherwise they become the iteration's final positions and the velocities that reach them in time `h`; the rest of the state is unchanged |

## Left out

- Floating point: every quantity is an exact real. `float` rounding, `norm()`, `sqrt` and `powf(d, 3)` (written `d * d * d`) are not modelled.
- The distance between two particles is an abstract positive, symmetric function (`IsDistance`), and the norm of a long vector (`g.norm()`) is an abstract function.
- Eigen's `SparseQR` factorisation and solve: an abstract `Solver` that fails or returns a vector with one component per unknown. Nothing is proved about the accuracy of the solution.
- `makeCompressed()` changes only Eigen's storage layout, not the matrix, and is not modelled.
- `calcY`, `calcG` and `updateExtForce` are defined outside this file; `Simulate.h` is not part of this model. Their results arrive as arguments.
- Logging: the `printf`/`cout` calls and the `log_verbosity` branches have no effect on the state.
- The first `x_vec` of `SimulateOnceMin` (lines 192-202) only feeds a log line, which `log_verbosity = 5` disables.
- The unused `f_int` vector of `calcResidual` and `SimulateOnceMin` and the unused `free_points` are not modelled.
- The C++ `assert`s are preconditions (`WellFormed`, `Covers`, `Defined`), not runtime aborts.
- Simulation.Simulate.SimulateOnceMin: requires `h != 0`, because the source divides by `h` and a zero step would write infinities into the velocities.
- Simulation.Simulate.Run: the clock advances even when the solve fails, as in the source.
- The stiffness loop of `SimulateOnceNR` visits every edge from both endpoints, so each edge's block enters `K` twice. The model keeps this as written; `Stiffness.StiffnessVisitsEachEdgeTwice` states it.
- `updateKMat` places ones only on the first `N` of the `3N` diagonal positions, so the residual sees only the first `N` components. The model keeps this as written; `Steps.SelectedResidual` states it.
- Loops that run `for (i = 0; i < n; i++)` are written `while k != n` where the bound is fixed; the two guards are equivalent.
- Integer widths (`int`, `unsigned`, `size_t`): indices are unbounded naturals, so overflow is not modelled.
