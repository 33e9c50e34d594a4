/** The potential-energy evaluator of a configuration (`member::foo`) and its
    activation function (`expLinUnit`). `exp` and `sqrt` are left
    uninterpreted: only the branch structure of the evaluator is modelled. */
module Evaluator {
  import opened Population

  /** The transcendental functions the evaluator calls. */
  datatype Numerics = Numerics(exp: real -> real, sqrt: real -> real)

  /** The only property of `exp` the sign of the fitness depends on. */
  ghost predicate ExpAtLeastOne(nm: Numerics) {
    forall x: real :: x >= 0.0 ==> nm.exp(x) >= 1.0
  }

  const Penalty: real := 9999.0
  const OverlapRadius: real := 0.1
  const Permittivity: real := 55.26349406
  const Pi: real := 3.14159265358979323846
  /** Coulomb prefactor `1/(4*pi*ep*10^-4)`. */
  const Coulomb: real := 1.0 / (4.0 * Pi * Permittivity * 0.0001)
  /** Born-Mayer repulsion `1.09*10^3 * exp(-r/0.321)`. */
  const BornMayerA: real := 1090.0
  const BornMayerRho: real := 0.321

  /** Integer power, standing for `pow` on an integral exponent. */
  function Pow(b: int, e: nat): int {
    if e == 0 then 1 else b * Pow(b, e - 1)
  }

  /** The pair sign `pow(-1, kronecker)` where `kronecker` says the names differ. */
  function Eta(a: Atom, b: Atom): (eta: int)
    ensures eta == -1 <==> a.name != b.name
    ensures eta == 1 <==> a.name == b.name
  {
    var kronecker: nat := if a.name != b.name then 1 else 0;
    Pow(-1, kronecker)
  }

  /** Euclidean distance in R^3 (`euclidNorm`). */
  function Distance(nm: Numerics, a: Atom, b: Atom): real {
    var dx := a.x - b.x;
    var dy := a.y - b.y;
    var dz := a.z - b.z;
    nm.sqrt(dx * dx + dy * dy + dz * dz)
  }

  /** The contribution of one unordered pair to the potential. */
  function PairTerm(nm: Numerics, a: Atom, b: Atom): (v: real)
    ensures Distance(nm, a, b) <= OverlapRadius ==> v == Penalty
  {
    var r := Distance(nm, a, b);
    if r <= OverlapRadius then Penalty
    else (Eta(a, b) as real) * (Coulomb / r) + BornMayerA * nm.exp(-r / BornMayerRho)
  }

  /** The pair term as a value, for the summing loops below. */
  function PairTermOf(nm: Numerics): (Atom, Atom) -> real {
    (a, b) => PairTerm(nm, a, b)
  }

  /** Inner loop: the pairs (i, j), (i, j+1), ..., (i, n-1), each contributing `term`. */
  function RowPotential(term: (Atom, Atom) -> real, ps: seq<Atom>, i: nat, j: nat): real
    requires i < |ps| && j <= |ps|
    decreases |ps| - j
  {
    if j == |ps| then 0.0 else term(ps[i], ps[j]) + RowPotential(term, ps, i, j + 1)
  }

  /** Outer loop: every row from `i` on, each row pairing `i` with the later particles. */
  function PotentialFrom(term: (Atom, Atom) -> real, ps: seq<Atom>, i: nat): real
    requires i <= |ps|
    decreases |ps| - i
  {
    if i == |ps| then 0.0 else RowPotential(term, ps, i, i + 1) + PotentialFrom(term, ps, i + 1)
  }

  /** The total potential: every unordered pair i < j counted once. */
  function Potential(nm: Numerics, ps: seq<Atom>): real {
    PotentialFrom(PairTermOf(nm), ps, 0)
  }

  /** `expLinUnit`: `exp(x) - 1` for non-negative input, the identity below zero. */
  function ExpLinUnit(nm: Numerics, x: real): (r: real)
    ensures x < 0.0 ==> r == x
    ensures ExpAtLeastOne(nm) ==> (r < 0.0 <==> x < 0.0)
  {
    if x >= 0.0 then nm.exp(x) - 1.0 else x
  }

  /** The fitness `foo` stores: the activation of the negated potential. */
  function Fitness(nm: Numerics, ps: seq<Atom>): (f: real)
    ensures Potential(nm, ps) > 0.0 ==> f == -Potential(nm, ps)
    ensures ExpAtLeastOne(nm) ==> (f < 0.0 <==> Potential(nm, ps) > 0.0)
  {
    ExpLinUnit(nm, -Potential(nm, ps))
  }

  /** `foo` as the evaluator handed to selection and crossover. */
  function FitnessOf(nm: Numerics): seq<Atom> -> real {
    ps => Fitness(nm, ps)
  }

  /** A member whose fitness is the evaluation of its current particles. */
  predicate Evaluated(nm: Numerics, m: Member) {
    Scored(FitnessOf(nm), m)
  }

  predicate AllEvaluated(nm: Numerics, p: seq<Member>) {
    AllScored(FitnessOf(nm), p)
  }

  /** The pair term does not depend on which atom of the pair comes first. */
  lemma PairTermSymmetric(nm: Numerics, a: Atom, b: Atom)
    ensures PairTerm(nm, a, b) == PairTerm(nm, b, a)
  {
    assert (a.x - b.x) * (a.x - b.x) == (b.x - a.x) * (b.x - a.x);
    assert (a.y - b.y) * (a.y - b.y) == (b.y - a.y) * (b.y - a.y);
    assert (a.z - b.z) * (a.z - b.z) == (b.z - a.z) * (b.z - a.z);
    assert Distance(nm, a, b) == Distance(nm, b, a);
  }

  /** Number of unordered pairs among `m` particles, counted as the double
      loop counts them: the first particle pairs with the `m - 1` others. */
  function Pairs(m: nat): nat {
    if m == 0 then 0 else (m - 1) + Pairs(m - 1)
  }

  /** The closed form of the pair count. */
  lemma {:induction false} PairsClosedForm(m: nat)
    ensures 2 * Pairs(m) == m * (m - 1)
  {
    if m > 0 {
      PairsClosedForm(m - 1);
      assert m * (m - 1) == 2 * (m - 1) + (m - 1) * (m - 2);
    }
  }

  predicate AllOverlapping(nm: Numerics, ps: seq<Atom>) {
    forall i, j :: 0 <= i < j < |ps| ==> Distance(nm, ps[i], ps[j]) <= OverlapRadius
  }

  /** Every pair i < j contributes the overlap penalty. */
  predicate AllPenalised(term: (Atom, Atom) -> real, ps: seq<Atom>) {
    forall i, j :: 0 <= i < j < |ps| ==> term(ps[i], ps[j]) == Penalty
  }

  /** The sum of `m` overlap penalties. */
  function Penalties(m: nat): real {
    if m == 0 then 0.0 else Penalty + Penalties(m - 1)
  }

  lemma {:induction false} PenaltiesAdd(a: nat, b: nat)
    ensures Penalties(a) + Penalties(b) == Penalties(a + b)
    decreases a
  {
    if a > 0 {
      PenaltiesAdd(a - 1, b);
    }
  }

  lemma {:induction false} PenaltiesValue(m: nat)
    ensures Penalties(m) == Penalty * (m as real)
  {
    if m > 0 {
      PenaltiesValue(m - 1);
    }
  }

  lemma {:induction false} RowOfOverlaps(term: (Atom, Atom) -> real, ps: seq<Atom>, i: nat, j: nat)
    requires i < j <= |ps|
    requires AllPenalised(term, ps)
    ensures RowPotential(term, ps, i, j) == Penalties(|ps| - j)
    decreases |ps| - j
  {
    if j < |ps| {
      RowOfOverlaps(term, ps, i, j + 1);
    }
  }

  lemma {:induction false} PotentialOfOverlaps(term: (Atom, Atom) -> real, ps: seq<Atom>, i: nat)
    requires i <= |ps|
    requires AllPenalised(term, ps)
    ensures PotentialFrom(term, ps, i) == Penalties(Pairs(|ps| - i))
    decreases |ps| - i
  {
    if i < |ps| {
      RowOfOverlaps(term, ps, i, i + 1);
      PotentialOfOverlaps(term, ps, i + 1);
      PenaltiesAdd(|ps| - i - 1, Pairs(|ps| - i - 1));
    }
  }

  /** A configuration whose every pair overlaps pays the fixed penalty once per
      pair, whatever the species, and its fitness is that total negated. */
  lemma CollapsedConfiguration(nm: Numerics, ps: seq<Atom>)
    requires AllOverlapping(nm, ps)
    ensures Potential(nm, ps) == Penalty * (Pairs(|ps|) as real)
    ensures |ps| >= 2 ==> Fitness(nm, ps) == -Penalty * (Pairs(|ps|) as real)
    ensures 2.0 * Potential(nm, ps) == Penalty * ((|ps| * (|ps| - 1)) as real)
  {
    PotentialOfOverlaps(PairTermOf(nm), ps, 0);
    PenaltiesValue(Pairs(|ps|));
    PairsClosedForm(|ps|);
    if |ps| >= 2 {
      assert Pairs(|ps|) >= 1;
    }
  }

  /** The two-atom scenario: a sodium at the origin and a chlorine at distance
      5 on the x-axis. The pair is of different species, so the Coulomb term
      enters with sign -1. */
  lemma TwoAtomFitness(nm: Numerics, na: Atom, cl: Atom)
    requires na == Atom("Na", 0.0, 0.0, 0.0) && cl == Atom("Cl", 5.0, 0.0, 0.0)
    requires nm.sqrt(25.0) == 5.0
    ensures Fitness(nm, [na, cl]) == ExpLinUnit(nm, -(-(Coulomb / 5.0) + BornMayerA * nm.exp(-5.0 / BornMayerRho)))
  {
    var ps := [na, cl];
    TwoAtomPair(nm, na, cl);
    OnePair(PairTermOf(nm), ps);
    assert Potential(nm, ps) == PairTerm(nm, na, cl);
  }

  /** Two particles form a single pair. */
  lemma OnePair(term: (Atom, Atom) -> real, ps: seq<Atom>)
    requires |ps| == 2
    ensures PotentialFrom(term, ps, 0) == term(ps[0], ps[1])
  {
    assert RowPotential(term, ps, 0, 1) == term(ps[0], ps[1]) + RowPotential(term, ps, 0, 2);
    assert PotentialFrom(term, ps, 1) == RowPotential(term, ps, 1, 2) + PotentialFrom(term, ps, 2);
  }

  /** The pair term of the two-atom scenario: Coulomb attraction plus repulsion. */
  lemma TwoAtomPair(nm: Numerics, na: Atom, cl: Atom)
    requires na == Atom("Na", 0.0, 0.0, 0.0) && cl == Atom("Cl", 5.0, 0.0, 0.0)
    requires nm.sqrt(25.0) == 5.0
    ensures PairTerm(nm, na, cl) == -(Coulomb / 5.0) + BornMayerA * nm.exp(-5.0 / BornMayerRho)
  {
    assert Distance(nm, na, cl) == 5.0;
    assert Eta(na, cl) == -1;
  }

}
