/** The evolution driver (`main` without its I/O): generation 0 generates,
    ranks and culls the oversized population; every later generation ranks,
    selects and crosses, mutates and ranks again. */
module Evolution {
  import opened Population
  import opened Evaluator
  import opened Generator
  import opened Ranking
  import opened Selection
  import opened Mutation

  /** The draws consumed by one generation. */
  datatype GenerationDraws = GenerationDraws(cross: seq<CrossDraw>, mutation: seq<MutationDraw>)

  predicate GenerationDrawOk(d: GenerationDraws, size: nat, n: nat) {
    && |d.cross| == size && CrossDrawsOk(d.cross, n)
    && |d.mutation| == MutationAmount && MutationDrawsOk(d.mutation, n)
  }

  predicate GenerationDrawsOk(gens: seq<GenerationDraws>, size: nat, n: nat) {
    forall g :: 0 <= g < |gens| ==> GenerationDrawOk(gens[g], size, n)
  }

  /** Generation 0: the ranked initial population cut to the working size. */
  function InitialWorking(nm: Numerics, numNa: nat, numCl: nat, init: seq<seq<Coords>>): (p: seq<Member>)
    requires |init| == InitPopSize && InitialDrawsOk(numNa, numCl, init)
    ensures |p| == PopSize
    ensures SortedDesc(p)
    ensures AllCanonical(p, CanonicalNames(numNa, numCl))
    ensures AllEvaluated(nm, p)
  {
    PopSizeValue();
    var generated := InitialPopulation(nm, numNa, numCl, init);
    var ranked := Sort(generated);
    var names := CanonicalNames(numNa, numCl);
    PermutationKeeps(generated, ranked, m => Canonical(m, names));
    PermutationKeeps(generated, ranked, m => Evaluated(nm, m));
    CullKeepsFittest(ranked);
    Cull(ranked)
  }

  /** Generation 0 keeps the fittest half: no member it drops is fitter than
      any member it keeps. */
  lemma InitialKeepsFittest(nm: Numerics, numNa: nat, numCl: nat, init: seq<seq<Coords>>)
    requires |init| == InitPopSize && InitialDrawsOk(numNa, numCl, init)
    ensures var ranked := Sort(InitialPopulation(nm, numNa, numCl, init));
      && InitialWorking(nm, numNa, numCl, init) == ranked[..PopSize]
      && forall i, j :: 0 <= i < PopSize <= j < InitPopSize ==>
           InitialWorking(nm, numNa, numCl, init)[i].fitness >= ranked[j].fitness
  {
    PopSizeValue();
  }

  /** One generation: rank, select and cross, mutate, rank. The best member
      survives crossover and mutation unchanged, so the best stored fitness
      of the population never decreases. Mutation does not re-evaluate, so a
      stored fitness may exceed what its particles earn (`StaleScoreCanLead`). */
  function Step(nm: Numerics, p: seq<Member>, n: nat, d: GenerationDraws): (r: seq<Member>)
    requires |p| >= 2 && Shaped(p, n) && GenerationDrawOk(d, |p|, n)
    ensures |r| == |p| && Shaped(r, n) && SortedDesc(r)
    ensures forall k :: 0 <= k < |p| ==> p[k].fitness <= r[0].fitness
  {
    var ranked := Sort(p);
    PermutationKeeps(p, ranked, (m: Member) => |m.particles| == n);
    SortedHeadIsBest(p, ranked);
    var crossed := SelectionCrossover(FitnessOf(nm), ranked, n, d.cross);
    var mutated := Mutate(crossed, n, d.mutation);
    var r := Sort(mutated);
    PermutationKeeps(mutated, r, (m: Member) => |m.particles| == n);
    SortedHeadIsBest(mutated, r);
    r
  }

  lemma StepKeepsCanonical(nm: Numerics, p: seq<Member>, names: seq<string>, d: GenerationDraws)
    requires |p| >= 2 && AllCanonical(p, names) && GenerationDrawOk(d, |p|, |names|)
    ensures AllCanonical(Step(nm, p, |names|, d), names)
  {
    var ranked := Sort(p);
    PermutationKeeps(p, ranked, m => Canonical(m, names));
    SelectionCrossoverKeepsCanonical(FitnessOf(nm), ranked, names, d.cross);
    var crossed := SelectionCrossover(FitnessOf(nm), ranked, |names|, d.cross);
    MutateKeepsCanonical(crossed, names, d.mutation);
    var mutated := Mutate(crossed, |names|, d.mutation);
    PermutationKeeps(mutated, Sort(mutated), m => Canonical(m, names));
  }

  /** The generations in order. */
  function Run(nm: Numerics, p: seq<Member>, n: nat, gens: seq<GenerationDraws>): (r: seq<Member>)
    requires |p| >= 2 && Shaped(p, n) && SortedDesc(p) && GenerationDrawsOk(gens, |p|, n)
    ensures |r| == |p| && Shaped(r, n) && SortedDesc(r)
    ensures r[0].fitness >= p[0].fitness
    decreases |gens|
  {
    if |gens| == 0 then p
    else
      var q := Step(nm, p, n, gens[0]);
      assert GenerationDrawsOk(gens[1..], |q|, n) by {
        forall g | 0 <= g < |gens| - 1
          ensures GenerationDrawOk(gens[1..][g], |q|, n)
        {
          assert gens[1..][g] == gens[g + 1];
        }
      }
      Run(nm, q, n, gens[1..])
  }

  lemma {:induction false} RunKeepsCanonical(nm: Numerics, p: seq<Member>, names: seq<string>, gens: seq<GenerationDraws>)
    requires |p| >= 2 && AllCanonical(p, names) && SortedDesc(p) && GenerationDrawsOk(gens, |p|, |names|)
    ensures AllCanonical(Run(nm, p, |names|, gens), names)
    decreases |gens|
  {
    if |gens| > 0 {
      StepKeepsCanonical(nm, p, names, gens[0]);
      var q := Step(nm, p, |names|, gens[0]);
      assert GenerationDrawsOk(gens[1..], |q|, |names|) by {
        forall g | 0 <= g < |gens| - 1
          ensures GenerationDrawOk(gens[1..][g], |q|, |names|)
        {
          assert gens[1..][g] == gens[g + 1];
        }
      }
      RunKeepsCanonical(nm, q, names, gens[1..]);
    }
  }

  /** The whole run: generation 0 and then `GENERATIONS` generations. The
      working population keeps exactly `POPSIZE` members, every one in the
      canonical species order and masked, and the best stored fitness at the
      end is at least the best stored fitness after culling. */
  function Evolve(nm: Numerics, numNa: nat, numCl: nat, init: seq<seq<Coords>>, gens: seq<GenerationDraws>): (r: seq<Member>)
    requires |init| == InitPopSize && InitialDrawsOk(numNa, numCl, init)
    requires |gens| == Generations && GenerationDrawsOk(gens, PopSize, numNa + numCl)
    ensures |r| == PopSize
    ensures AllCanonical(r, CanonicalNames(numNa, numCl))
    ensures r[0].fitness >= InitialWorking(nm, numNa, numCl, init)[0].fitness
  {
    PopSizeValue();
    var names := CanonicalNames(numNa, numCl);
    var p := InitialWorking(nm, numNa, numCl, init);
    CanonicalIsShaped(p, names);
    RunKeepsCanonical(nm, p, names, gens);
    Run(nm, p, numNa + numCl, gens)
  }
  /** Mutation moves particles without re-evaluating them, so a stored fitness
      can go stale, and ranking on stored fitness can then put the stale
      member at the head, where no later crossover or mutation touches it.
      Two evaluated members, the second the fitter (as a crossover child at
      index 1 can be); an evaluator that tells particle lists apart when the
      x coordinates of their particle 1 differ; one round that picks member 1
      and scales that coordinate, not 0, by a factor other than 1.
      The ranking then heads with a member whose stored fitness its particles
      no longer earn. */
  lemma StaleScoreCanLead(fit: seq<Atom> -> real, p: seq<Member>, draws: seq<MutationDraw>)
    requires |p| == 2 && Shaped(p, 2) && AllScored(fit, p) && p[0].fitness < p[1].fitness
    requires forall ps: seq<Atom>, qs: seq<Atom> :: |ps| >= 2 && |qs| >= 2 && ps[1].x != qs[1].x ==> fit(ps) != fit(qs)
    requires |draws| == 1 && MutationDrawOk(draws[0], 2) && draws[0].pick == 0.0
    requires p[1].particles[1].x != 0.0 && draws[0].scales[1].sx != 1.0
    ensures var r := Sort(Mutate(p, 2, draws));
      r[0].fitness == p[1].fitness && !Scored(fit, r[0])
  {
    var moved := MutateMember(p[1], draws[0].scales);
    MutateMoves(p[1], draws[0].scales);
    MutateOnceAtOne(p, draws);
    var q := Mutate(p, 2, draws);
    assert fit(moved.particles) != fit(p[1].particles) == p[1].fitness;
    assert q[1] == moved && moved.fitness == p[1].fitness;
    assert !Scored(fit, moved);
    var r := Sort(q);
    SortedHeadIsBest(q, r);
    assert r[0] in multiset(q);
    assert r[0] == q[0] || r[0] == q[1];
  }
}
