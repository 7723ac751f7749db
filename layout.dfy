/**
 * The vector layout of the global system: the per-particle 3-vectors are
 * packed into one vector of length 3N with component `d` of particle `i` at
 * index `3i + d`, and unpacked again from a solution vector.
 */
module Layout {
  import opened Vectors

  /** Packs per-particle vectors: index `r` holds component `r % 3` of particle `r / 3`. */
  function Pack(vs: seq<Vec3>): (f: seq<real>)
    ensures |f| == 3 * |vs|
  {
    seq(3 * |vs|, r requires 0 <= r < 3 * |vs| => vs[r / 3].At(r % 3))
  }

  /** Index `3i + d` of a packed vector holds component `d` of particle `i`. */
  lemma PackAt(vs: seq<Vec3>, i: nat, d: nat)
    requires i < |vs| && d < 3
    ensures Pack(vs)[3 * i + d] == vs[i].At(d)
  {
    IndexOf(i, d);
  }

  /** Unpacks a vector of length 3N: particle `i` gets indices `3i`, `3i + 1`, `3i + 2`. */
  function Unpack(f: seq<real>): (vs: seq<Vec3>)
    requires |f| % 3 == 0
    ensures 3 * |vs| == |f|
    ensures forall i, d :: 0 <= i < |vs| && 0 <= d < 3 ==> vs[i].At(d) == f[3 * i + d]
  {
    seq(|f| / 3, i requires 0 <= i < |f| / 3 => Vec3(f[3 * i], f[3 * i + 1], f[3 * i + 2]))
  }

  /** Every index of a packed vector is `3i + d` for exactly one particle `i` and component `d`. */
  lemma IndexSplit(r: nat)
    ensures r == 3 * (r / 3) + r % 3 && r % 3 < 3
  {
  }

  /** Index `3i + d` belongs to particle `i`, component `d`. */
  lemma IndexOf(i: nat, d: nat)
    requires d < 3
    ensures (3 * i + d) / 3 == i && (3 * i + d) % 3 == d
  {
  }

  /** Unpacking a packed vector gives back the per-particle vectors. */
  lemma UnpackPack(vs: seq<Vec3>)
    ensures Unpack(Pack(vs)) == vs
  {
    var back := Unpack(Pack(vs));
    forall i | 0 <= i < |vs|
      ensures back[i] == vs[i]
    {
      assert back[i].At(0) == vs[i].At(0) && back[i].At(1) == vs[i].At(1) && back[i].At(2) == vs[i].At(2);
    }
  }

  /** Packing an unpacked vector gives back the vector. */
  lemma PackUnpack(f: seq<real>)
    requires |f| % 3 == 0
    ensures Pack(Unpack(f)) == f
  {
    var back := Pack(Unpack(f));
    forall r | 0 <= r < |f|
      ensures back[r] == f[r]
    {
      IndexSplit(r);
      assert back[3 * (r / 3) + r % 3] == Unpack(f)[r / 3].At(r % 3);
    }
  }

  /**
   * The loops that fill `f` from `f_tot` and `vt` from `velocity`: three
   * assignments per particle into a buffer of length 3N.
   */
  method PackVector(vs: seq<Vec3>) returns (f: seq<real>)
    ensures f == Pack(vs)
  {
    var buf := new real[3 * |vs|];
    var i := 0;
    while i < |vs|
      invariant 0 <= i <= |vs|
      invariant forall r :: 0 <= r < 3 * i ==> buf[r] == vs[r / 3].At(r % 3)
    {
      buf[3 * i] := vs[i].x;
      buf[3 * i + 1] := vs[i].y;
      buf[3 * i + 2] := vs[i].z;
      i := i + 1;
    }
    f := buf[..];
  }
}
