/** The initial population (`generatePopulation`): every member lists its
    sodium atoms, then its chlorine atoms, at random positions in the box
    [-10, 10) that respect the degrees-of-freedom mask. */
module Generator {
  import opened Population
  import opened Evaluator

  const BoxHalfWidth: real := 10.0

  /** The draw of `dist(-10, 10)` for the unit draw `t`. */
  function Uniform(t: real): (v: real)
    requires Unit(t)
    ensures -BoxHalfWidth <= v < BoxHalfWidth
  {
    -BoxHalfWidth + 2.0 * BoxHalfWidth * t
  }

  predicate InBox(v: real) {
    -BoxHalfWidth <= v < BoxHalfWidth
  }

  /** `atom{name}`: aggregate initialisation value-initialises x, y and z to 0. */
  function Fresh(name: string): Atom {
    Atom(name, 0.0, 0.0, 0.0)
  }

  /** The switch on the particle index, as written. In `x, y, z = 0` and
      `y, z = 0` the comma operator discards the leading operands, so only `z`
      is assigned; the other masked coordinates keep the value they had. */
  function Place(j: nat, at: Atom, c: Coords): (r: Atom)
    requires CoordsOk(c)
    ensures r.name == at.name
    ensures at.x == 0.0 && at.y == 0.0 ==> AtomMasked(j, r)
    ensures FreeX(j) ==> InBox(r.x)
    ensures FreeY(j) ==> InBox(r.y)
    ensures FreeZ(j) ==> InBox(r.z)
  {
    if j == 0 then at.(z := 0.0)
    else if j == 1 then at.(x := Uniform(c.tx), z := 0.0)
    else if j == 2 then at.(x := Uniform(c.tx), y := Uniform(c.ty), z := 0.0)
    else at.(x := Uniform(c.tx), y := Uniform(c.ty), z := Uniform(c.tz))
  }

  /** The pinning of particle 0 (and the y of particle 1) rests on the zero
      initialisation of the atom: from a non-zero start they stay non-zero. */
  lemma PlaceReliesOnZeroInit(c: Coords)
    requires CoordsOk(c)
    ensures Place(0, Atom("Na", 1.0, 1.0, 1.0), c) == Atom("Na", 1.0, 1.0, 0.0)
    ensures Place(1, Atom("Na", 1.0, 1.0, 1.0), c).y == 1.0
  {
  }

  /** The particles of one new member. */
  function Particles(numNa: nat, numCl: nat, cs: seq<Coords>): (ps: seq<Atom>)
    requires |cs| == numNa + numCl && AllCoordsOk(cs)
    ensures HasNames(ps, CanonicalNames(numNa, numCl))
    ensures Masked(ps)
    ensures forall j :: 0 <= j < |ps| && FreeX(j) ==> InBox(ps[j].x)
    ensures forall j :: 0 <= j < |ps| && FreeY(j) ==> InBox(ps[j].y)
    ensures forall j :: 0 <= j < |ps| && FreeZ(j) ==> InBox(ps[j].z)
  {
    var blank := seq(numNa, _ => Fresh("Na")) + seq(numCl, _ => Fresh("Cl"));
    seq(|blank|, j requires 0 <= j < |blank| => Place(j, blank[j], cs[j]))
  }

  /** A new member: its particles and the fitness `foo` assigns them. */
  function NewMember(nm: Numerics, numNa: nat, numCl: nat, cs: seq<Coords>): (m: Member)
    requires |cs| == numNa + numCl && AllCoordsOk(cs)
    ensures Canonical(m, CanonicalNames(numNa, numCl))
    ensures Evaluated(nm, m)
  {
    var ps := Particles(numNa, numCl, cs);
    Member(Fitness(nm, ps), ps)
  }

  predicate InitialDrawsOk(numNa: nat, numCl: nat, draws: seq<seq<Coords>>) {
    forall i :: 0 <= i < |draws| ==> |draws[i]| == numNa + numCl && AllCoordsOk(draws[i])
  }

  /** The oversized initial population, every member canonical and evaluated. */
  function InitialPopulation(nm: Numerics, numNa: nat, numCl: nat, draws: seq<seq<Coords>>): (p: seq<Member>)
    requires |draws| == InitPopSize && InitialDrawsOk(numNa, numCl, draws)
    ensures |p| == InitPopSize
    ensures AllCanonical(p, CanonicalNames(numNa, numCl))
    ensures AllEvaluated(nm, p)
  {
    seq(InitPopSize, i requires 0 <= i < InitPopSize => NewMember(nm, numNa, numCl, draws[i]))
  }
}
