/**
 * The topology of the mass-spring system: the flat edge list, the rest-length
 * index keyed by canonical `(min, max)` pairs that `Init` fills and
 * `getOrigLen` reads, and the adjacency enumeration of `getAdjV`.
 *
 * The edge list is flat, as in the source: edge `k` joins `edgelist[2k]` and
 * `edgelist[2k + 1]`.
 */
module Topology {
  import opened Vectors

  type EdgeList = seq<nat>

  /** Number of edges the source's loops visit: `edgelist.size() / 2`. */
  function EdgeCount(edges: EdgeList): nat {
    |edges| / 2
  }

  /** First endpoint of edge `k`. */
  function Src(edges: EdgeList, k: nat): nat
    requires k < EdgeCount(edges)
  {
    edges[2 * k]
  }

  /** Second endpoint of edge `k`. */
  function Dst(edges: EdgeList, k: nat): nat
    requires k < EdgeCount(edges)
  {
    edges[2 * k + 1]
  }

  /** Edge `k` joins `a` and `b`, in either orientation. */
  predicate Joins(edges: EdgeList, k: nat, a: nat, b: nat)
    requires k < EdgeCount(edges)
  {
    (Src(edges, k) == a && Dst(edges, k) == b) || (Src(edges, k) == b && Dst(edges, k) == a)
  }

  /**
   * What `Init` asserts of the edge list (an even number of indices and no
   * self-loop), together with every endpoint naming one of the `n` particles,
   * which `Init` needs to index `positions`.
   */
  predicate WellFormed(edges: EdgeList, n: nat) {
    && |edges| % 2 == 0
    && forall k :: 0 <= k < EdgeCount(edges) ==>
         Src(edges, k) != Dst(edges, k) && Src(edges, k) < n && Dst(edges, k) < n
  }

  // ---------------------------------------------------------------------------
  // Canonical keys and the rest-length index
  // ---------------------------------------------------------------------------

  /** The key `(small, large)` under which the pair `{i, j}` is stored. */
  function Key(i: nat, j: nat): (key: (nat, nat))
    ensures key.0 <= key.1
    ensures (key.0 == i && key.1 == j) || (key.0 == j && key.1 == i)
  {
    if i < j then (i, j) else (j, i)
  }

  /** Two pairs share a key exactly when they are the same unordered pair. */
  lemma KeyInjective(a: nat, b: nat, c: nat, d: nat)
    ensures Key(a, b) == Key(c, d) <==> ((a == c && b == d) || (a == d && b == c))
  {
  }

  /**
   * The rest-length index after the first `n` iterations of the loop in
   * `Init`: edge `k` stores the distance between its endpoints' positions
   * under its canonical key, later edges overwriting earlier ones.
   */
  function RestLengthsUpTo(edges: EdgeList, pos: seq<Vec3>, dist: (Vec3, Vec3) -> real, n: nat): map<(nat, nat), real>
    requires n <= EdgeCount(edges)
    requires forall k :: 0 <= k < EdgeCount(edges) ==> Src(edges, k) < |pos| && Dst(edges, k) < |pos|
  {
    if n == 0 then map[]
    else
      var a, b := Src(edges, n - 1), Dst(edges, n - 1);
      RestLengthsUpTo(edges, pos, dist, n - 1)[Key(a, b) := dist(pos[a], pos[b])]
  }

  /** The index `Init` builds. */
  function RestLengths(edges: EdgeList, pos: seq<Vec3>, dist: (Vec3, Vec3) -> real): map<(nat, nat), real>
    requires forall k :: 0 <= k < EdgeCount(edges) ==> Src(edges, k) < |pos| && Dst(edges, k) < |pos|
  {
    RestLengthsUpTo(edges, pos, dist, EdgeCount(edges))
  }

  /**
   * The edge loop of `Init`: for every edge `(a, b)` in order, the entry at
   * `(min(a, b), max(a, b))` becomes the distance between its endpoints.
   */
  method BuildRestLengths(edges: EdgeList, pos: seq<Vec3>, dist: (Vec3, Vec3) -> real) returns (rest: map<(nat, nat), real>)
    requires WellFormed(edges, |pos|)
    ensures rest == RestLengths(edges, pos, dist)
  {
    rest := map[];
    var k := 0;
    while k < |edges| / 2
      invariant 0 <= k <= EdgeCount(edges)
      invariant rest == RestLengthsUpTo(edges, pos, dist, k)
    {
      var a, b := edges[2 * k], edges[2 * k + 1];
      assert a == Src(edges, k) && b == Dst(edges, k);
      var small := if a < b then a else b;
      var large := if a < b then b else a;
      rest := rest[(small, large) := dist(pos[a], pos[b])];
      k := k + 1;
    }
  }

  /** The distance abstraction: positive and symmetric in its two points. */
  ghost predicate IsDistance(dist: (Vec3, Vec3) -> real) {
    forall p, q :: dist(p, q) > 0.0 && dist(p, q) == dist(q, p)
  }

  /**
   * The index holds exactly one entry per distinct edge: its keys are the
   * canonical keys of the first `n` edges, and the entry of every one of
   * them is the distance between that edge's endpoints, whichever
   * orientation was listed (and whichever duplicate came last).
   */
  lemma {:induction false} RestLengthsUpToSpec(edges: EdgeList, pos: seq<Vec3>, dist: (Vec3, Vec3) -> real, n: nat)
    requires n <= EdgeCount(edges)
    requires forall k :: 0 <= k < EdgeCount(edges) ==> Src(edges, k) < |pos| && Dst(edges, k) < |pos|
    requires IsDistance(dist)
    ensures forall key :: key in RestLengthsUpTo(edges, pos, dist, n) <==>
              exists k :: 0 <= k < n && Key(Src(edges, k), Dst(edges, k)) == key
    ensures forall k :: 0 <= k < n ==>
              var a, b := Src(edges, k), Dst(edges, k);
              Key(a, b) in RestLengthsUpTo(edges, pos, dist, n) &&
              RestLengthsUpTo(edges, pos, dist, n)[Key(a, b)] == dist(pos[a], pos[b])
  {
    if n > 0 {
      RestLengthsUpToSpec(edges, pos, dist, n - 1);
      var prev := RestLengthsUpTo(edges, pos, dist, n - 1);
      RestLengthsKeysStep(edges, pos, dist, n, prev);
      RestLengthsValuesStep(edges, pos, dist, n, prev);
    }
  }

  /** The keys after `n` edges are those after `n - 1` and the key of edge `n - 1`. */
  lemma RestLengthsKeysStep(edges: EdgeList, pos: seq<Vec3>, dist: (Vec3, Vec3) -> real, n: nat, prev: map<(nat, nat), real>)
    requires 0 < n <= EdgeCount(edges)
    requires forall k :: 0 <= k < EdgeCount(edges) ==> Src(edges, k) < |pos| && Dst(edges, k) < |pos|
    requires prev == RestLengthsUpTo(edges, pos, dist, n - 1)
    requires forall key :: key in prev <==> exists k :: 0 <= k < n - 1 && Key(Src(edges, k), Dst(edges, k)) == key
    ensures forall key :: key in RestLengthsUpTo(edges, pos, dist, n) <==>
              exists k :: 0 <= k < n && Key(Src(edges, k), Dst(edges, k)) == key
  {
    var m := RestLengthsUpTo(edges, pos, dist, n);
    forall key
      ensures key in m <==> exists k :: 0 <= k < n && Key(Src(edges, k), Dst(edges, k)) == key
    {
      if key in prev {
        var k :| 0 <= k < n - 1 && Key(Src(edges, k), Dst(edges, k)) == key;
      }
    }
  }

  /** After edge `n - 1` is stored, every edge so far maps to its own length. */
  lemma RestLengthsValuesStep(edges: EdgeList, pos: seq<Vec3>, dist: (Vec3, Vec3) -> real, n: nat, prev: map<(nat, nat), real>)
    requires 0 < n <= EdgeCount(edges)
    requires forall k :: 0 <= k < EdgeCount(edges) ==> Src(edges, k) < |pos| && Dst(edges, k) < |pos|
    requires IsDistance(dist)
    requires prev == RestLengthsUpTo(edges, pos, dist, n - 1)
    requires forall k :: 0 <= k < n - 1 ==>
               var a, b := Src(edges, k), Dst(edges, k);
               Key(a, b) in prev && prev[Key(a, b)] == dist(pos[a], pos[b])
    ensures forall k :: 0 <= k < n ==>
              var a, b := Src(edges, k), Dst(edges, k);
              Key(a, b) in RestLengthsUpTo(edges, pos, dist, n) &&
              RestLengthsUpTo(edges, pos, dist, n)[Key(a, b)] == dist(pos[a], pos[b])
  {
    var m := RestLengthsUpTo(edges, pos, dist, n);
    var a, b := Src(edges, n - 1), Dst(edges, n - 1);
    forall k | 0 <= k < n
      ensures Key(Src(edges, k), Dst(edges, k)) in m
      ensures m[Key(Src(edges, k), Dst(edges, k))] == dist(pos[Src(edges, k)], pos[Dst(edges, k)])
    {
      var c, d := Src(edges, k), Dst(edges, k);
      KeyInjective(a, b, c, d);
      if Key(c, d) == Key(a, b) && !(a == c && b == d) {
        assert dist(pos[a], pos[b]) == dist(pos[b], pos[a]);
      }
    }
  }

  /** Every listed edge has an entry in `rest`, and that entry is positive. */
  predicate Covers(rest: map<(nat, nat), real>, edges: EdgeList) {
    forall k :: 0 <= k < EdgeCount(edges) ==>
      Key(Src(edges, k), Dst(edges, k)) in rest && rest[Key(Src(edges, k), Dst(edges, k))] > 0.0
  }

  /** The index `Init` builds covers the edge list. */
  lemma RestLengthsCover(edges: EdgeList, pos: seq<Vec3>, dist: (Vec3, Vec3) -> real)
    requires WellFormed(edges, |pos|) && IsDistance(dist)
    ensures Covers(RestLengths(edges, pos, dist), edges)
  {
    RestLengthsUpToSpec(edges, pos, dist, EdgeCount(edges));
  }

  /** `getOrigLen(i, j)`: the rest length stored under the canonical key of `{i, j}`. */
  function GetOrigLen(rest: map<(nat, nat), real>, i: nat, j: nat): (l: real)
    requires i != j
    requires Key(i, j) in rest && rest[Key(i, j)] > 0.0
    ensures l > 0.0
  {
    rest[Key(i, j)]
  }

  /**
   * After `Init`, looking up either orientation of any listed edge gives the
   * distance between its endpoints' initial positions.
   */
  lemma LookupAfterInit(edges: EdgeList, pos: seq<Vec3>, dist: (Vec3, Vec3) -> real, k: nat)
    requires WellFormed(edges, |pos|) && IsDistance(dist)
    requires k < EdgeCount(edges)
    ensures var rest, a, b := RestLengths(edges, pos, dist), Src(edges, k), Dst(edges, k);
            && Key(a, b) in rest && rest[Key(a, b)] > 0.0
            && GetOrigLen(rest, a, b) == dist(pos[a], pos[b])
            && GetOrigLen(rest, b, a) == dist(pos[a], pos[b])
  {
    RestLengthsUpToSpec(edges, pos, dist, EdgeCount(edges));
    KeyInjective(Src(edges, k), Dst(edges, k), Dst(edges, k), Src(edges, k));
  }

  // ---------------------------------------------------------------------------
  // Adjacency
  // ---------------------------------------------------------------------------

  /** What iteration `k` of `getAdjV(v)` appends. */
  function AdjStep(edges: EdgeList, v: nat, k: nat): seq<nat>
    requires k < EdgeCount(edges)
  {
    if Src(edges, k) == v then [Dst(edges, k)]
    else if Dst(edges, k) == v then [Src(edges, k)]
    else []
  }

  /** The neighbours of `v` found among the first `n` edges, in edge-list order. */
  function AdjVUpTo(edges: EdgeList, v: nat, n: nat): seq<nat>
    requires n <= EdgeCount(edges)
  {
    if n == 0 then [] else AdjVUpTo(edges, v, n - 1) + AdjStep(edges, v, n - 1)
  }

  /** `getAdjV(v)`: the other endpoint of every edge touching `v`, in edge-list order. */
  function AdjV(edges: EdgeList, v: nat): seq<nat> {
    AdjVUpTo(edges, v, EdgeCount(edges))
  }

  /** `getAdjV(vi)`: one pass over the edge list, appending the other endpoint of every edge at `vi`. */
  method GetAdjV(edges: EdgeList, vi: nat) returns (ret: seq<nat>)
    ensures ret == AdjV(edges, vi)
  {
    ret := [];
    var i := 0;
    while i < |edges| / 2
      invariant 0 <= i <= EdgeCount(edges)
      invariant ret == AdjVUpTo(edges, vi, i)
    {
      if edges[2 * i] == vi {
        ret := ret + [edges[2 * i + 1]];
      } else if edges[2 * i + 1] == vi {
        ret := ret + [edges[2 * i]];
      }
      i := i + 1;
    }
  }

  /** The number of the first `n` edges joining `a` and `b`. */
  function JoiningUpTo(edges: EdgeList, a: nat, b: nat, n: nat): nat
    requires n <= EdgeCount(edges)
  {
    if n == 0 then 0
    else JoiningUpTo(edges, a, b, n - 1) + (if Joins(edges, n - 1, a, b) then 1 else 0)
  }

  /** The number of edges joining `a` and `b`. */
  function Joining(edges: EdgeList, a: nat, b: nat): nat {
    JoiningUpTo(edges, a, b, EdgeCount(edges))
  }

  /** The number of occurrences of `x` among the first `n` elements of `s`. */
  function CountPrefix<T(==)>(s: seq<T>, x: T, n: nat): nat
    requires n <= |s|
  {
    if n == 0 then 0 else CountPrefix(s, x, n - 1) + (if s[n - 1] == x then 1 else 0)
  }

  /** The number of occurrences of `x` in `s`. */
  function Count<T(==)>(s: seq<T>, x: T): nat {
    CountPrefix(s, x, |s|)
  }

  /** Counting only looks at the elements it counts. */
  lemma {:induction false} CountPrefixSame<T>(s: seq<T>, t: seq<T>, x: T, n: nat)
    requires n <= |s| && n <= |t|
    requires forall i :: 0 <= i < n ==> s[i] == t[i]
    ensures CountPrefix(s, x, n) == CountPrefix(t, x, n)
  {
    if n > 0 {
      CountPrefixSame(s, t, x, n - 1);
    }
  }

  lemma {:induction false} CountPrefixAppend<T>(a: seq<T>, b: seq<T>, x: T, n: nat)
    requires n <= |b|
    ensures CountPrefix(a + b, x, |a| + n) == Count(a, x) + CountPrefix(b, x, n)
  {
    if n == 0 {
      CountPrefixSame(a + b, a, x, |a|);
    } else {
      CountPrefixAppend(a, b, x, n - 1);
      assert (a + b)[|a| + n - 1] == b[n - 1];
    }
  }

  /** Occurrences in a concatenation add up. */
  lemma CountAppend<T>(a: seq<T>, b: seq<T>, x: T)
    ensures Count(a + b, x) == Count(a, x) + Count(b, x)
  {
    CountPrefixAppend(a, b, x, |b|);
  }

  /** A one-element sequence holds `x` once if it is `x`, and never otherwise. */
  lemma CountSingleton<T>(y: T, x: T)
    ensures Count([y], x) == if y == x then 1 else 0
  {
    assert CountPrefix([y], x, 0) == 0;
  }

  lemma {:induction false} CountPrefixPositive<T>(s: seq<T>, x: T, n: nat)
    requires n <= |s|
    ensures CountPrefix(s, x, n) > 0 <==> exists i :: 0 <= i < n && s[i] == x
  {
    if n > 0 {
      CountPrefixPositive(s, x, n - 1);
    }
  }

  /** `x` occurs at least once exactly when it is in `s`. */
  lemma CountPositive<T>(s: seq<T>, x: T)
    ensures Count(s, x) > 0 <==> x in s
  {
    CountPrefixPositive(s, x, |s|);
  }

  /**
   * `w` occurs in the neighbours of `v` exactly as often as there are edges
   * joining `v` and `w`.
   */
  lemma {:induction false} AdjVUpToMultiplicity(edges: EdgeList, v: nat, w: nat, n: nat)
    requires n <= EdgeCount(edges)
    ensures Count(AdjVUpTo(edges, v, n), w) == JoiningUpTo(edges, v, w, n)
  {
    if n > 0 {
      var prev, step := AdjVUpTo(edges, v, n - 1), AdjStep(edges, v, n - 1);
      AdjVUpToMultiplicity(edges, v, w, n - 1);
      AdjStepMultiplicity(edges, v, w, n - 1);
      CountAppend(prev, step, w);
    }
  }

  /** One iteration of `getAdjV(v)` appends `w` once if edge `k` joins `v` and `w`, and never otherwise. */
  lemma AdjStepMultiplicity(edges: EdgeList, v: nat, w: nat, k: nat)
    requires k < EdgeCount(edges)
    ensures Count(AdjStep(edges, v, k), w) == if Joins(edges, k, v, w) then 1 else 0
  {
    var a, b := Src(edges, k), Dst(edges, k);
    if a == v {
      assert AdjStep(edges, v, k) == [b];
      CountSingleton(b, w);
    } else if b == v {
      assert AdjStep(edges, v, k) == [a];
      CountSingleton(a, w);
    } else {
      assert AdjStep(edges, v, k) == [];
    }
  }

  lemma {:induction false} JoiningUpToSymmetric(edges: EdgeList, a: nat, b: nat, n: nat)
    requires n <= EdgeCount(edges)
    ensures JoiningUpTo(edges, a, b, n) == JoiningUpTo(edges, b, a, n)
  {
    if n > 0 {
      JoiningUpToSymmetric(edges, a, b, n - 1);
    }
  }

  /** Some edge witnesses a positive count. */
  lemma {:induction false} JoiningUpToWitness(edges: EdgeList, a: nat, b: nat, n: nat) returns (k: nat)
    requires n <= EdgeCount(edges)
    requires JoiningUpTo(edges, a, b, n) > 0
    ensures k < n && Joins(edges, k, a, b)
  {
    if Joins(edges, n - 1, a, b) {
      k := n - 1;
    } else {
      k := JoiningUpToWitness(edges, a, b, n - 1);
    }
  }

  /**
   * Adjacency is symmetric with multiplicities: `w` is listed among the
   * neighbours of `v` as many times as `v` among those of `w`, namely the
   * number of edges joining them.
   */
  lemma AdjVSymmetric(edges: EdgeList, v: nat, w: nat)
    ensures Count(AdjV(edges, v), w) == Joining(edges, v, w)
    ensures Count(AdjV(edges, v), w) == Count(AdjV(edges, w), v)
    ensures w in AdjV(edges, v) <==> v in AdjV(edges, w)
  {
    AdjVUpToMultiplicity(edges, v, w, EdgeCount(edges));
    AdjVUpToMultiplicity(edges, w, v, EdgeCount(edges));
    JoiningUpToSymmetric(edges, v, w, EdgeCount(edges));
    CountPositive(AdjV(edges, v), w);
    CountPositive(AdjV(edges, w), v);
  }

  /**
   * Every neighbour `w` of `v` is joined to `v` by some listed edge; in a
   * well-formed edge list it is therefore a particle distinct from `v`.
   */
  lemma AdjVSound(edges: EdgeList, n: nat, v: nat, w: nat) returns (k: nat)
    requires w in AdjV(edges, v)
    ensures k < EdgeCount(edges) && Joins(edges, k, v, w)
    ensures WellFormed(edges, n) ==> v != w && v < n && w < n
  {
    CountPositive(AdjV(edges, v), w);
    AdjVUpToMultiplicity(edges, v, w, EdgeCount(edges));
    k := JoiningUpToWitness(edges, v, w, EdgeCount(edges));
  }

  // ---------------------------------------------------------------------------
  // Visits: the pairs the stiffness assembly walks through
  // ---------------------------------------------------------------------------

  /** The pairs `(i, j)` for `j` in `js`, in order. */
  function Pairs(i: nat, js: seq<nat>): (ps: seq<(nat, nat)>)
    ensures |ps| == |js|
  {
    if js == [] then [] else Pairs(i, js[..|js| - 1]) + [(i, js[|js| - 1])]
  }

  lemma {:induction false} PairsAt(i: nat, js: seq<nat>, t: nat)
    requires t < |js|
    ensures Pairs(i, js)[t] == (i, js[t])
  {
    if t < |js| - 1 {
      PairsAt(i, js[..|js| - 1], t);
    }
  }

  /** The pairs visited for particle `i`: `(i, j)` for `j` in `getAdjV(i)`. */
  function VisitPairs(edges: EdgeList): nat -> seq<(nat, nat)> {
    i => Pairs(i, AdjV(edges, i))
  }

  /** `f(0) + f(1) + ... + f(n - 1)`. */
  function Concat<T>(f: nat -> seq<T>, n: nat): seq<T> {
    if n == 0 then [] else Concat(f, n - 1) + f(n - 1)
  }

  /** The number of occurrences of `x` in `f(0)`, ..., `f(n - 1)`. */
  function CountUpTo<T(==)>(f: nat -> seq<T>, x: T, n: nat): nat {
    if n == 0 then 0 else CountUpTo(f, x, n - 1) + Count(f(n - 1), x)
  }

  lemma {:induction false} CountConcat<T>(f: nat -> seq<T>, x: T, n: nat)
    ensures Count(Concat(f, n), x) == CountUpTo(f, x, n)
  {
    if n > 0 {
      CountConcat(f, x, n - 1);
      CountAppend(Concat(f, n - 1), f(n - 1), x);
    }
  }

  /** When only `f(a)` holds `x`, and `c` times, the first `n` hold it `c` times if they include `f(a)`. */
  lemma {:induction false} CountUpToSingle<T>(f: nat -> seq<T>, x: T, n: nat, a: nat, c: nat)
    requires forall i: nat :: Count(f(i), x) == if i == a then c else 0
    ensures CountUpTo(f, x, n) == if a < n then c else 0
  {
    if n > 0 {
      CountUpToSingle(f, x, n - 1, a, c);
    }
  }

  /**
   * The pairs `(i, j)`, `j` in `getAdjV(i)`, for `i` below `n`, in the
   * order the stiffness assembly of `SimulateOnceNR` visits them.
   */
  function Visits(edges: EdgeList, n: nat): seq<(nat, nat)> {
    if n == 0 then [] else Visits(edges, n - 1) + Pairs(n - 1, AdjV(edges, n - 1))
  }

  lemma {:induction false} VisitsConcat(edges: EdgeList, n: nat)
    ensures Visits(edges, n) == Concat(VisitPairs(edges), n)
  {
    if n > 0 {
      VisitsConcat(edges, n - 1);
      var f := VisitPairs(edges);
      assert f(n - 1) == Pairs(n - 1, AdjV(edges, n - 1));
    }
  }

  lemma {:induction false} PairsPrefixMultiplicity(i: nat, js: seq<nat>, a: nat, b: nat, n: nat)
    requires n <= |js|
    ensures CountPrefix(Pairs(i, js), (a, b), n) == if a == i then CountPrefix(js, b, n) else 0
  {
    if n > 0 {
      PairsPrefixMultiplicity(i, js, a, b, n - 1);
      PairsAt(i, js, n - 1);
    }
  }

  /** The pair `(a, b)` occurs in `Pairs(i, js)` as often as `b` in `js` when `a` is `i`, and never otherwise. */
  lemma PairsMultiplicity(i: nat, js: seq<nat>, a: nat, b: nat)
    ensures Count(Pairs(i, js), (a, b)) == if a == i then Count(js, b) else 0
  {
    PairsPrefixMultiplicity(i, js, a, b, |js|);
  }

  /**
   * The assembly visits every edge once from each endpoint: the pair
   * `(a, b)` is visited as many times as there are edges joining `a` and
   * `b`, for every particle `a` below `n`.
   */
  lemma VisitsMultiplicity(edges: EdgeList, n: nat, a: nat, b: nat)
    ensures Count(Visits(edges, n), (a, b)) == if a < n then Joining(edges, a, b) else 0
  {
    forall i: nat
      ensures Count(VisitPairs(edges)(i), (a, b)) == if i == a then Joining(edges, a, b) else 0
    {
      VisitPairsMultiplicity(edges, i, a, b);
    }
    VisitsConcat(edges, n);
    CountConcat(VisitPairs(edges), (a, b), n);
    CountUpToSingle(VisitPairs(edges), (a, b), n, a, Joining(edges, a, b));
  }

  /** The pairs visited for particle `i` hold `(i, b)` once per edge joining `i` and `b`. */
  lemma VisitPairsMultiplicity(edges: EdgeList, i: nat, a: nat, b: nat)
    ensures Count(VisitPairs(edges)(i), (a, b)) == if a == i then Joining(edges, a, b) else 0
  {
    PairsMultiplicity(i, AdjV(edges, i), a, b);
    AdjVUpToMultiplicity(edges, i, b, EdgeCount(edges));
  }

  /** Every visited pair is an edge of a well-formed list, so both ends are distinct particles. */
  lemma VisitsSound(edges: EdgeList, n: nat, t: nat)
    requires WellFormed(edges, n) && t < |Visits(edges, n)|
    ensures var (i, j) := Visits(edges, n)[t];
            i != j && i < n && j < n && Joining(edges, i, j) > 0
  {
    var (i, j) := Visits(edges, n)[t];
    CountPositive(Visits(edges, n), (i, j));
    VisitsMultiplicity(edges, n, i, j);
    var k := JoiningUpToWitness(edges, i, j, EdgeCount(edges));
  }
}
