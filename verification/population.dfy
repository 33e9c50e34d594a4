/** Data model shared by every stage of the genetic search for low-energy
    Na/Cl cluster configurations: atoms, population members, the run's tuning
    constants, explicit random draws and the degrees-of-freedom mask. */
module Population {

  datatype Option<T> = None | Some(value: T)

  /** One particle: its species label ("Na" or "Cl") and its position. */
  datatype Atom = Atom(name: string, x: real, y: real, z: real)

  /** One candidate configuration: its fitness score and its ordered particles. */
  datatype Member = Member(fitness: real, particles: seq<Atom>)

  // Tuning constants of the run.
  const Generations: nat := 100
  const InitPopSize: nat := 10000
  const KeepRatio: real := 0.5
  /** The working population size; `PopSizeValue` shows it is
      `INITPOPSIZE*KEEPRATIO` truncated to an int. */
  const PopSize: nat := 5000
  const Alpha: real := 0.25
  const MutationAmount: nat := 20
  const MutationPercent: real := 0.01

  /** A uniform draw from [0, 1), the range of the run's `perc` distribution. */
  predicate Unit(t: real) {
    0.0 <= t < 1.0
  }

  /** Three unit draws for one particle, used for x, y and z in that order. */
  datatype Coords = Coords(tx: real, ty: real, tz: real)

  predicate CoordsOk(c: Coords) {
    Unit(c.tx) && Unit(c.ty) && Unit(c.tz)
  }

  predicate AllCoordsOk(cs: seq<Coords>) {
    forall j :: 0 <= j < |cs| ==> CoordsOk(cs[j])
  }

  /** A unit draw scales a non-negative quantity into [0, quantity], strictly
      below it when the quantity is positive. */
  lemma UnitScale(t: real, w: real)
    requires Unit(t) && w >= 0.0
    ensures 0.0 <= t * w <= w
    ensures w > 0.0 ==> t * w < w
  {
    assert (1.0 - t) * w >= 0.0;
    if w > 0.0 {
      assert (1.0 - t) * w > 0.0;
    }
  }

  /* Degrees-of-freedom mask. Particle 0 is pinned at the origin, particle 1
     moves only along the x-axis, particle 2 only in the xy-plane, and every
     later particle moves freely. */
  predicate FreeX(a: int) { a >= 1 }
  predicate FreeY(a: int) { a >= 2 }
  predicate FreeZ(a: int) { a >= 3 }

  /** Every coordinate the mask fixes for particle index `a` is zero. */
  predicate AtomMasked(a: int, at: Atom) {
    && (!FreeX(a) ==> at.x == 0.0)
    && (!FreeY(a) ==> at.y == 0.0)
    && (!FreeZ(a) ==> at.z == 0.0)
  }

  predicate Masked(ps: seq<Atom>) {
    forall a :: 0 <= a < |ps| ==> AtomMasked(a, ps[a])
  }

  /** The canonical species order: all sodium atoms, then all chlorine atoms. */
  function CanonicalNames(numNa: nat, numCl: nat): (names: seq<string>)
    ensures |names| == numNa + numCl
    ensures forall a :: 0 <= a < |names| ==> names[a] == (if a < numNa then "Na" else "Cl")
  {
    seq(numNa, _ => "Na") + seq(numCl, _ => "Cl")
  }

  predicate HasNames(ps: seq<Atom>, names: seq<string>) {
    |ps| == |names| && forall a :: 0 <= a < |ps| ==> ps[a].name == names[a]
  }

  /** A member with the run's species order that respects the mask. */
  predicate Canonical(m: Member, names: seq<string>) {
    HasNames(m.particles, names) && Masked(m.particles)
  }

  predicate AllCanonical(p: seq<Member>, names: seq<string>) {
    forall k :: 0 <= k < |p| ==> Canonical(p[k], names)
  }

  /** Every member holds exactly `n` particles (the run's `numAtoms`). */
  predicate Shaped(p: seq<Member>, n: nat) {
    forall k :: 0 <= k < |p| ==> |p[k].particles| == n
  }

  /** A member whose stored fitness is what the evaluator `fit` assigns to its
      current particles. */
  predicate Scored(fit: seq<Atom> -> real, m: Member) {
    m.fitness == fit(m.particles)
  }

  predicate AllScored(fit: seq<Atom> -> real, p: seq<Member>) {
    forall k :: 0 <= k < |p| ==> Scored(fit, p[k])
  }

  lemma CanonicalIsShaped(p: seq<Member>, names: seq<string>)
    requires AllCanonical(p, names)
    ensures Shaped(p, |names|)
  {
  }

  lemma PopSizeValue()
    ensures PopSize == (InitPopSize as real * KeepRatio).Floor
    ensures 2 <= PopSize <= InitPopSize
  {
  }
}
