/** Mutation (`mutate`): a fixed number of rounds, each picking a member other
    than the best and scaling its free coordinates by factors drawn from
    [1 - p, 1 + p). Fitness is not re-evaluated. */
module Mutation {
  import opened Population

  /** The multiplicative factors for one particle's x, y and z. */
  datatype Scale = Scale(sx: real, sy: real, sz: real)

  /** The draws of one round: the pick of the member and one scale per particle. */
  datatype MutationDraw = MutationDraw(pick: real, scales: seq<Scale>)

  /** A draw of `mut`, uniform on [1 - MUTATIONPERCENT, 1 + MUTATIONPERCENT). */
  predicate Factor(f: real) {
    1.0 - MutationPercent <= f < 1.0 + MutationPercent
  }

  predicate ScaleOk(s: Scale) {
    Factor(s.sx) && Factor(s.sy) && Factor(s.sz)
  }

  predicate ScalesOk(scales: seq<Scale>) {
    forall a :: 0 <= a < |scales| ==> ScaleOk(scales[a])
  }

  predicate MutationDrawOk(d: MutationDraw, n: nat) {
    Unit(d.pick) && |d.scales| == n && ScalesOk(d.scales)
  }

  predicate MutationDrawsOk(draws: seq<MutationDraw>, n: nat) {
    forall i :: 0 <= i < |draws| ==> MutationDrawOk(draws[i], n)
  }

  /** `1 + perc(rd)*(POPSIZE-1)` converted to int: never the best member at
      index 0, never past the end. */
  function MutationIndex(t: real, size: int): (k: int)
    requires Unit(t) && size >= 2
    ensures 1 <= k <= size - 1
  {
    var w := (size - 1) as real;
    UnitScale(t, w);
    (1.0 + t * w).Floor
  }

  /** The draw that picks member `k`: every index other than the best can be
      mutated. */
  function DrawFor(k: int, size: int): (t: real)
    requires 1 <= k <= size - 1
    ensures Unit(t)
    ensures MutationIndex(t, size) == k
  {
    var w := (size - 1) as real;
    var t := ((k - 1) as real) / w;
    assert t * w == (k - 1) as real;
    assert (k - 1) as real < w;
    t
  }

  /** `v` scaled by a factor in [1 - p, 1 + p]: it keeps its sign and moves by
      at most the fraction p of its magnitude. */
  predicate Near(v: real, w: real) {
    if v >= 0.0 then (1.0 - MutationPercent) * v <= w <= (1.0 + MutationPercent) * v
    else (1.0 + MutationPercent) * v <= w <= (1.0 - MutationPercent) * v
  }

  lemma ScaledIsNear(v: real, f: real)
    requires Factor(f)
    ensures Near(v, v * f)
  {
    var lo := 1.0 - MutationPercent;
    var hi := 1.0 + MutationPercent;
    assert lo <= f <= hi;
    if v >= 0.0 {
      MulNonNeg(f - lo, v);
      MulNonNeg(hi - f, v);
    } else {
      MulNonNeg(f - lo, -v);
      MulNonNeg(hi - f, -v);
    }
  }

  lemma MulNonNeg(a: real, b: real)
    requires a >= 0.0 && b >= 0.0
    ensures a * b >= 0.0
  {
  }

  lemma MulNonZero(a: real, b: real)
    requires a != 0.0 && b != 0.0
    ensures a * b != 0.0
  {
  }

  /** One particle: free coordinates are scaled, masked ones are left as they are. */
  function MutateAtom(a: int, at: Atom, s: Scale): (r: Atom)
    requires ScaleOk(s)
    ensures r.name == at.name
    ensures !FreeX(a) ==> r.x == at.x
    ensures !FreeY(a) ==> r.y == at.y
    ensures !FreeZ(a) ==> r.z == at.z
    ensures Near(at.x, r.x) && Near(at.y, r.y) && Near(at.z, r.z)
    ensures AtomMasked(a, at) ==> AtomMasked(a, r)
  {
    Atom(at.name, ScaleIf(FreeX(a), at.x, s.sx), ScaleIf(FreeY(a), at.y, s.sy), ScaleIf(FreeZ(a), at.z, s.sz))
  }

  /** `v *= mut(rd)` for a free coordinate; a fixed one is left alone. */
  function ScaleIf(free: bool, v: real, f: real): (w: real)
    requires Factor(f)
    ensures Near(v, w)
    ensures !free ==> w == v
  {
    ScaledIsNear(v, f);
    if free then v * f else v
  }

  /** One mutated member; its fitness field is carried over unchanged. */
  function MutateMember(m: Member, scales: seq<Scale>): (r: Member)
    requires |scales| == |m.particles| && ScalesOk(scales)
    ensures r.fitness == m.fitness
    ensures |r.particles| == |m.particles|
    ensures forall a :: 0 <= a < |r.particles| ==> r.particles[a].name == m.particles[a].name
    ensures forall a :: 0 <= a < |r.particles| ==> Near(m.particles[a].x, r.particles[a].x)
    ensures forall a :: 0 <= a < |r.particles| ==> Near(m.particles[a].y, r.particles[a].y)
    ensures forall a :: 0 <= a < |r.particles| ==> Near(m.particles[a].z, r.particles[a].z)
    ensures |m.particles| > 0 ==> r.particles[0] == m.particles[0]
    ensures Masked(m.particles) ==> Masked(r.particles)
  {
    var ps := seq(|m.particles|, a requires 0 <= a < |m.particles| => MutateAtom(a, m.particles[a], scales[a]));
    assert Masked(m.particles) ==> Masked(ps) by {
      if Masked(m.particles) {
        forall a | 0 <= a < |ps|
          ensures AtomMasked(a, ps[a])
        {
          assert AtomMasked(a, m.particles[a]);
        }
      }
    }
    Member(m.fitness, ps)
  }

  /** Mutation really moves a member: a free coordinate that is not 0, scaled
      by a factor other than 1, changes, while the fitness field does not. */
  lemma MutateMoves(m: Member, scales: seq<Scale>)
    requires |scales| == |m.particles| >= 2 && ScalesOk(scales)
    requires m.particles[1].x != 0.0 && scales[1].sx != 1.0
    ensures MutateMember(m, scales).particles[1].x != m.particles[1].x
  {
    var x, f := m.particles[1].x, scales[1].sx;
    assert MutateMember(m, scales).particles[1] == MutateAtom(1, m.particles[1], scales[1]);
    assert MutateAtom(1, m.particles[1], scales[1]).x == ScaleIf(true, x, f);
    ScaleMoves(x, f);
  }

  lemma ScaleMoves(v: real, f: real)
    requires Factor(f) && v != 0.0 && f != 1.0
    ensures ScaleIf(true, v, f) != v
  {
    MulNonZero(v, f - 1.0);
    assert v * f - v == v * (f - 1.0);
  }

  /** The rounds of `mutate`, in draw order; a member may be picked again. */
  function Mutate(p: seq<Member>, n: nat, draws: seq<MutationDraw>): (r: seq<Member>)
    requires |p| >= 2 && Shaped(p, n) && MutationDrawsOk(draws, n)
    ensures |r| == |p| && Shaped(r, n)
    ensures r[0] == p[0]
    ensures forall k :: 0 <= k < |p| ==> r[k].fitness == p[k].fitness
    decreases |draws|
  {
    if |draws| == 0 then p
    else
      var k := MutationIndex(draws[0].pick, |p|);
      Mutate(p[k := MutateMember(p[k], draws[0].scales)], n, draws[1..])
  }

  /** A single round whose draw is 0 mutates member 1 and nothing else. */
  lemma MutateOnceAtOne(p: seq<Member>, draws: seq<MutationDraw>)
    requires |p| == 2 && Shaped(p, 2) && |draws| == 1 && MutationDrawOk(draws[0], 2) && draws[0].pick == 0.0
    ensures Mutate(p, 2, draws) == p[1 := MutateMember(p[1], draws[0].scales)]
  {
    assert MutationIndex(draws[0].pick, 2) == 1;
    var moved := MutateMember(p[1], draws[0].scales);
    assert MutationDrawsOk(draws, 2) && MutationDrawsOk(draws[1..], 2);
    assert Shaped(p[1 := moved], 2);
    assert Mutate(p, 2, draws) == Mutate(p[1 := moved], 2, draws[1..]);
  }

  /** A member no round picks is left exactly as it was. */
  lemma {:induction false} MutateUntouched(p: seq<Member>, n: nat, draws: seq<MutationDraw>, k: int)
    requires |p| >= 2 && Shaped(p, n) && MutationDrawsOk(draws, n) && 0 <= k < |p|
    requires forall i :: 0 <= i < |draws| ==> MutationIndex(draws[i].pick, |p|) != k
    ensures Mutate(p, n, draws)[k] == p[k]
    decreases |draws|
  {
    if |draws| > 0 {
      var j := MutationIndex(draws[0].pick, |p|);
      var q := p[j := MutateMember(p[j], draws[0].scales)];
      forall i | 0 <= i < |draws| - 1
        ensures MutationIndex(draws[1..][i].pick, |q|) != k
      {
        assert draws[1..][i] == draws[i + 1];
      }
      MutateUntouched(q, n, draws[1..], k);
    }
  }

  /** Mutation keeps the species order and the mask of every member. */
  lemma {:induction false} MutateKeepsCanonical(p: seq<Member>, names: seq<string>, draws: seq<MutationDraw>)
    requires |p| >= 2 && AllCanonical(p, names) && MutationDrawsOk(draws, |names|)
    ensures AllCanonical(Mutate(p, |names|, draws), names)
    decreases |draws|
  {
    if |draws| > 0 {
      var j := MutationIndex(draws[0].pick, |p|);
      var q := p[j := MutateMember(p[j], draws[0].scales)];
      assert Canonical(q[j], names);
      assert AllCanonical(q, names);
      MutateKeepsCanonical(q, names, draws[1..]);
    }
  }

  /** Every coordinate that is 0 in `m` is 0 in `r`. */
  predicate ZerosKept(m: Member, r: Member)
    requires |r.particles| == |m.particles|
  {
    forall a :: 0 <= a < |m.particles| ==>
      && (m.particles[a].x == 0.0 ==> r.particles[a].x == 0.0)
      && (m.particles[a].y == 0.0 ==> r.particles[a].y == 0.0)
      && (m.particles[a].z == 0.0 ==> r.particles[a].z == 0.0)
  }

  /** A coordinate that is 0 stays 0 under any number of rounds. */
  lemma {:induction false} MutateKeepsZeros(p: seq<Member>, n: nat, draws: seq<MutationDraw>)
    requires |p| >= 2 && Shaped(p, n) && MutationDrawsOk(draws, n)
    ensures var r := Mutate(p, n, draws);
      forall k :: 0 <= k < |p| ==> ZerosKept(p[k], r[k])
    decreases |draws|
  {
    if |draws| > 0 {
      var j := MutationIndex(draws[0].pick, |p|);
      var q := p[j := MutateMember(p[j], draws[0].scales)];
      MutateKeepsZeros(q, n, draws[1..]);
      var r := Mutate(p, n, draws);
      forall k | 0 <= k < |p|
        ensures ZerosKept(p[k], r[k])
      {
        assert ZerosKept(q[k], r[k]);
        if k == j {
          forall a | 0 <= a < |p[k].particles|
            ensures p[k].particles[a].x == 0.0 ==> q[k].particles[a].x == 0.0
            ensures p[k].particles[a].y == 0.0 ==> q[k].particles[a].y == 0.0
            ensures p[k].particles[a].z == 0.0 ==> q[k].particles[a].z == 0.0
          {
            assert Near(p[k].particles[a].x, q[k].particles[a].x);
            assert Near(p[k].particles[a].y, q[k].particles[a].y);
            assert Near(p[k].particles[a].z, q[k].particles[a].z);
          }
        }
      }
    }
  }
}
