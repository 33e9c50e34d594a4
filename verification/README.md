# Genetic search for Na/Cl clusters: a Dafny model

This project models the core of a genetic algorithm that looks for
low-energy three-dimensional arrangements of `numNa` sodium and `numCl`
chlorine atoms. A population member is a list of particles, each with a
species label and a position, plus a fitness score. The model covers:

- the evaluator: the pairwise Coulomb plus Born–Mayer potential, the
  overlap penalty, and the `expLinUnit` activation;
- the initial population generator, including its degrees-of-freedom rules;
- BLX-alpha crossover of one coordinate;
- the roulette-wheel selection and crossover pass;
- mutation;
- ranking by descending fitness, and culling to the working size;
- the generation loop of `main`.

Modules, one per file:

| module | file | models |
|---|---|---|
| `Population` | `population.dfy` | atoms, members, tuning constants, unit draws, freedom mask, species order |
| `Evaluator` | `evaluator.dfy` | `expLinUnit`, `euclidNorm`, `member::foo` |
| `Generator` | `generator.dfy` | `generatePopulation` |
| `Blend` | `blend.dfy` | `BLXalphaCross` |
| `Ranking` | `ranking.dfy` | `sort`, and the copy of the first `POPSIZE` members |
| `Selection` | `selection.dfy` | `selectionCrossover` |
| `Mutation` | `mutation.dfy` | `mutate` |
| `Evolution` | `evolution.dfy` | the generation loop of `main`, without its I/O |

## Modelling choices

- **Randomness.** Every random draw is an explicit argument.
  - A draw of `perc` is a real `t` with `0 <= t < 1` (`Unit`).
  - A draw of `dist(-10, 10)` is `-10 + 20t`.
  - A draw of `mut` is a factor in `[1 - MUTATIONPERCENT, 1 + MUTATIONPERCENT)`.
  - The draws are grouped per target (`CrossDraw`), per mutation round (`MutationDraw`), per generated or blended particle (`Coords`, three unit draws for x, y and z) and per generation (`GenerationDraws`).
- **Numbers.**
  - `float` and `double` are modelled as `real`.
  - `exp` and `sqrt` are left uninterpreted: they are the two function-valued fields of `Numerics`.
  - Facts that need `exp(x) >= 1` for `x >= 0` take it as the hypothesis `ExpAtLeastOne`.
- **Mutable population.** `selectionCrossover` and `mutate` rewrite the vector in place. Here they are folds over an immutable `seq<Member>`:
  - Each step of the crossover pass scans the population as already rewritten by the earlier steps, exactly as the loop does.
  - A donor may be the target itself.
- **The evaluator as a parameter.** Two parts of the model take the function they sum or store as an argument.
  - The double loop of `foo` is written over a pair function: `RowPotential` and `PotentialFrom` take it as an argument. `Evaluator.Potential` instantiates them with `foo`'s pair term (`PairTermOf`).
  - Selection and crossover take the evaluator `fit: seq<Atom> -> real` that the program's `foo` call stands for. `Evolution.Step` passes `foo` itself (`Evaluator.FitnessOf`), so a rewritten member stores exactly `foo` of its new particles.
  - `Population.Scored(fit, m)` states that a stored fitness is `fit` of the member's particles. `Evaluator.Evaluated` is that predicate with `foo`.
- **Loop bounds.** Loops bounded by `POPSIZE` run over the whole population, and loops bounded by `numAtoms` run over a member's particles.
  - `Shaped(p, n)` states that every member holds `n = numNa + numCl` particles.
  - `Evolve` fixes the working size at `POPSIZE` (5000) and the run at `GENERATIONS` (100).
- **Freedom mask.** Crossover and mutation switch on the particle index.
  - The model writes that switch as a mask: `FreeX`, `FreeY` and `FreeZ` hold for indices at least 1, 2 and 3.
  - `AtomMasked` and `Masked` state that every fixed coordinate is 0.
- **Generator quirk.** The generator keeps the switch exactly as written (`Generator.Place`).
  - `a[j].x, a[j].y, a[j].z = 0` and `a[j].y, a[j].z = 0` are comma expressions, so they assign only `z`.
  - The pinned coordinates are 0 only because `atom{"Na"}` value-initialises `x`, `y` and `z`.
  - `Generator.PlaceReliesOnZeroInit` shows that the switch alone would not pin them. The program always starts from a zeroed atom, so its behaviour is unaffected.

### Behaviour worth noting

- **Sign of the Coulomb term.** The variable `kronecker` is 1 when the two names differ. So `pow(-1, kronecker)` is −1 for unlike species and +1 for like species, and opposite charges attract.
  - `Evaluator.TwoAtomFitness` accordingly has `-(k/5)` for the Na–Cl pair at distance 5.
- **All-zero fitness.** When every fitness is 0, `selectionCrossover` still rewrites every target.
  - The threshold is `t·0 = 0`, and the running total reaches it at index 0.
  - So every target is blended with the best member (`Selection.AllZeroCrossesWithBest`).
- **All-negative fitness.** When every fitness is negative, `selectionCrossover` returns the population unchanged (`Selection.AllNegativeIsNoOp`).
- **Stale scores after mutation.** `mutate` scales coordinates but never calls `foo`, so a mutated member keeps a fitness its particles no longer earn. The next `sort` ranks on that stored value and can put the member at index 0. Neither `selectionCrossover` (targets start at 1) nor `mutate` (indices start at 1) ever rewrites index 0, so a stale head score can persist for all later generations (`Evolution.StaleScoreCanLead`). The monotonicity that `Evolution.Step`, `Run` and `Evolve` state is about this stored fitness.
- **Stale total.** The wheel total is computed once, before the pass, while each scan adds up the current fitness values. So a later target can be left alone even when the pass starts from a ranked population with no negative fitness: an earlier child with low fitness can keep the running total below the threshold.
  - `Selection.StaleTotalCanLeaveTargetAlone` shows a case: fitness 5, 4, 1 and draw 0.95, where target 1's child scores −100. The lemma takes the evaluator as a parameter and uses members with no particles, so that −100 is a hypothesis about an abstract evaluator: `foo` itself gives an empty particle list exp(0) − 1 = 0. Any child score below 3.5 has the same outcome, and `foo` gives a negative score to every child with positive potential, for example a child of two particles within 0.1 of each other, whose potential is 9999.

## Model

| member | source | states |
|---|---|---|
| Population.PopSizeValue | main.cpp:10-13 | `POPSIZE = INITPOPSIZE*KEEPRATIO` truncated is 5000, between 2 and the initial size |
| Population.CanonicalNames | main.cpp:95-96 | the species list has numNa + numCl entries: "Na" at the first numNa indices, "Cl" at the rest |
| Evaluator.Eta | main.cpp:72-73 | the sign factor is −1 exactly when the two names differ and +1 exactly when they agree |
| Evaluator.PairTerm | main.cpp:74-82 | a pair closer than or at 0.1 contributes exactly 9999, whatever the species |
| Evaluator.PairTermSymmetric | main.cpp:46-51 | a pair's contribution does not depend on the order of the two particles |
| Evaluator.ExpLinUnit | main.cpp:36-42 | the identity on negative inputs; given exp(x) ≥ 1 for x ≥ 0, negative exactly for negative inputs |
| Evaluator.Fitness | main.cpp:68-86 | for positive potential the fitness is minus the potential; fitness is negative exactly when the potential is positive |
| Evaluator.PairsClosedForm | main.cpp:69-71 | the double loop over i < j visits n(n−1)/2 pairs |
| Evaluator.RowOfOverlaps | main.cpp:70-84 | when every pair contributes the penalty, the inner loop from j adds one penalty per remaining partner |
| Evaluator.PotentialOfOverlaps | main.cpp:69-85 | when every pair contributes the penalty, the outer loop from i adds one penalty per pair among the remaining particles |
| Evaluator.CollapsedConfiguration | main.cpp:69-85 | when every pair overlaps, the potential is 9999 times the number of pairs, so twice the potential is 9999·n(n−1); with two or more atoms the fitness is its negation |
| Evaluator.TwoAtomFitness | main.cpp:68-86 | Na at the origin and Cl at distance 5 give fitness expLinUnit(−(−k/5 + 1090·exp(−5/0.321))) |
| Evaluator.TwoAtomPair | main.cpp:72-82 | the Na–Cl pair at distance 5 contributes −k/5 + 1090·exp(−5/0.321) |
| Evaluator.OnePair | main.cpp:69-85 | two particles make exactly one pair, so the potential is that pair's term |
| Blend.Blx | main.cpp:127-139 | the child lies in [min − α·range, max + α·range], strictly below the upper bound for a proper range; equal parents give that parent |
| Blend.BlxSymmetric | main.cpp:127-135 | swapping the parents does not change the child |
| Blend.BlxDraw | main.cpp:136-138 | every value of the half-open interval is produced by some unit draw, so the bounds of Blx are tight |
| Generator.Uniform | main.cpp:26 | a generator draw lies in [−10, 10) |
| Generator.Place | main.cpp:98-116 | the name is kept; starting from a zeroed atom the mask holds; every free coordinate is in the box |
| Generator.PlaceReliesOnZeroInit | main.cpp:99-106 | the comma-operator cases assign only z: a non-zero x or y survives them |
| Generator.Particles | main.cpp:94-117 | numNa "Na" then numCl "Cl", masked, free coordinates in the box |
| Generator.NewMember | main.cpp:94-120 | a new member is canonical and its fitness is the evaluator's value for its particles |
| Generator.InitialPopulation | main.cpp:91-122 | INITPOPSIZE members, every one canonical and evaluated |
| Ranking.Insert | main.cpp:190-197 | inserting into a descending list gives a descending list with the same members plus the new one |
| Ranking.ConsSorted | main.cpp:190-197 | a member at least as fit as the head of a descending list can be put in front of it |
| Ranking.Sort | main.cpp:190-197 | the result is in descending fitness order and is a permutation of the input |
| Ranking.SortedHeadIsBest | main.cpp:190-197 | after ranking, no member is fitter than the head |
| Ranking.PermutationKeeps | main.cpp:190-197 | a property every member has survives ranking |
| Ranking.Cull | main.cpp:262-263 | the working population is exactly the first POPSIZE members |
| Ranking.CullKeepsFittest | main.cpp:260-263 | after ranking, no dropped member is fitter than a kept one, and the kept ones stay ordered |
| Selection.RouletteTotal | main.cpp:146-149 | the wheel total is non-negative; it is the full sum when no fitness is negative and 0 when all are negative |
| Selection.WheelBounds | main.cpp:146-149 | no running total of the scan exceeds the wheel total |
| Selection.Scan | main.cpp:153-157 | the scan returns the least index whose running total reaches the threshold, or none when no running total does |
| Selection.FindDonor | main.cpp:152-157 | the donor is the least index whose running total reaches the threshold; none exists otherwise |
| Selection.DonorIsFound | main.cpp:152-157 | the donor is unique: the scan returns it whenever it exists, and returns nothing exactly when no running total reaches the threshold |
| Selection.DonorFitness | main.cpp:152-157 | for a non-negative threshold the donor's fitness is non-negative, positive when the threshold is positive |
| Selection.ReachedWithin | main.cpp:152-157 | a threshold no larger than some running total always finds a donor |
| Selection.ScaledReached | main.cpp:150-157 | a unit draw times a non-negative total no larger than some running total always finds a donor |
| Selection.DonorExists | main.cpp:146-157 | with no negative fitness, every draw finds a donor |
| Selection.RankedWeight | main.cpp:146-149 | on a ranked population the wheel total equals the running total of a non-empty leading segment |
| Selection.RankedDonorExists | main.cpp:145-157 | on a ranked population with a non-negative best, the pass's first scan (the total and the running totals both taken from the ranked input) always finds a donor |
| Selection.DonorWithin | main.cpp:146-157 | once the wheel total equals a leading running total, every draw finds a donor |
| Selection.CrossAtom | main.cpp:158-179 | the name is kept, the masked coordinates become 0, and each free coordinate lies in the BLX interval of donor and target |
| Selection.CrossParticles | main.cpp:158-180 | the names are kept and the mask holds |
| Selection.Crossed | main.cpp:158-181 | the rewritten member keeps its names, is masked, and stores the evaluator's value for its new particles |
| Selection.CrossWithSelf | main.cpp:158-181 | blending a masked member with itself leaves its particles unchanged |
| Selection.CrossStep | main.cpp:151-184 | for a threshold `rand`, only the target changes; with a donor it becomes the blend with that donor, and without one nothing changes |
| Selection.CrossPass | main.cpp:151-185 | members before the first target are untouched and every member keeps its particle count |
| Selection.SelectionCrossover | main.cpp:145-186 | the best member (index 0) is untouched |
| Selection.CrossPassOutcome | main.cpp:151-185 | every member of the pass's result is either unchanged or rewritten: masked, and storing the evaluator's value for its particles |
| Selection.SelectionCrossoverOutcome | main.cpp:145-186 | after the pass, every member is unchanged or rewritten |
| Selection.CrossStepKeepsCanonical | main.cpp:158-181 | one step keeps every member's species order and mask |
| Selection.CrossPassKeepsCanonical | main.cpp:151-185 | the pass keeps every member's species order and mask |
| Selection.SelectionCrossoverKeepsCanonical | main.cpp:145-186 | selection and crossover keep every member's species order and mask |
| Selection.CrossStepKeepsScored | main.cpp:181 | if every fitness equals the evaluator's value before a step, it still does after it |
| Selection.CrossPassKeepsScored | main.cpp:151-185 | if every fitness equals the evaluator's value before the pass, it still does after it |
| Selection.SelectionCrossoverKeepsScored | main.cpp:145-186 | if every fitness equals the evaluator's value on entry, it still does after selection and crossover |
| Selection.CrossPassIdle | main.cpp:151-157 | with every fitness negative and every threshold non-negative, no step of the pass finds a donor |
| Selection.AllNegativeIsNoOp | main.cpp:145-157 | when every fitness is negative the pass leaves the population unchanged |
| Selection.StaleTotalCanLeaveTargetAlone | main.cpp:146-184 | with the total fixed before the pass, a ranked non-negative population (5, 4, 1; draw 0.95) whose first child scores −100 finds no donor for target 2, which stays unchanged |
| Selection.CrossPassFromBest | main.cpp:151-184 | while member 0 is unchanged and the donor of every remaining draw, each remaining target is blended with member 0 |
| Selection.PassFirstFromBest | main.cpp:151-184 | when member 0 is the donor of the first remaining target, that target ends the pass blended with member 0 |
| Selection.PassSkipsAhead | main.cpp:151-184 | a step at target i leaves member 0 and every later target as they were |
| Selection.BestIsDonor | main.cpp:152-157 | a threshold no larger than the best's fitness selects the best |
| Selection.ThresholdsAtBest | main.cpp:150-157 | when the total is non-negative and at most the best's fitness, every draw's threshold selects the best |
| Selection.DonorAtHead | main.cpp:152-157 | whether member 0 is the donor for a threshold depends only on member 0 |
| Selection.BestCarriesWheel | main.cpp:145-186 | when the best's fitness alone reaches the wheel total, every target is blended with the best |
| Selection.AllZeroCrossesWithBest | main.cpp:145-186 | an all-zero-fitness population is not left alone: every target is blended with the best |
| Mutation.MutationIndex | main.cpp:203 | the mutated index lies in [1, POPSIZE−1]: never the best, never past the end |
| Mutation.DrawFor | main.cpp:203 | every index in [1, POPSIZE−1] is picked by some unit draw |
| Mutation.ScaledIsNear | main.cpp:28 | a factor from `mut` keeps the sign of a coordinate and moves it by at most 1 % of its magnitude |
| Mutation.ScaleIf | main.cpp:209-218 | a coordinate is scaled only when it is free, and then moves by at most 1 % keeping its sign |
| Mutation.MutateAtom | main.cpp:205-219 | the name is kept, coordinates the mask fixes are untouched, free ones move within 1 %, and the mask is preserved |
| Mutation.MutateMember | main.cpp:204-220 | the fitness is not re-evaluated, particle 0 is untouched, names and mask are kept, and coordinates move within 1 % |
| Mutation.MutateMoves | main.cpp:208-210 | a non-zero x of particle 1 scaled by a factor other than 1 really changes, while the fitness field stays as it was |
| Mutation.MutateOnceAtOne | main.cpp:202-203 | one round with the draw 0 picks index `1 + 0·(POPSIZE−1) = 1`: member 1 is mutated and member 0 stays as it was |
| Mutation.Mutate | main.cpp:201-222 | after MUTATIONAMOUNT rounds the best is untouched, every fitness field is unchanged, and every member keeps its particle count |
| Mutation.MutateUntouched | main.cpp:201-222 | a member that no round picks is unchanged |
| Mutation.MutateKeepsCanonical | main.cpp:201-222 | mutation keeps every member's species order and mask |
| Mutation.MutateKeepsZeros | main.cpp:209-218 | a coordinate that is 0 stays 0 |
| Evolution.InitialWorking | main.cpp:259-263 | generation 0 has POPSIZE members, ranked, canonical and evaluated |
| Evolution.InitialKeepsFittest | main.cpp:259-263 | generation 0 is the first POPSIZE of the ranked initial population, none less fit than a dropped one |
| Evolution.Step | main.cpp:266-273 | one generation keeps the size and the particle count, ends ranked, and its best stored fitness is at least the stored fitness of every member before it |
| Evolution.StepKeepsCanonical | main.cpp:266-273 | one generation keeps every member's species order and mask |
| Evolution.Run | main.cpp:266-273 | over any number of generations the population stays ranked and the best stored fitness never decreases |
| Evolution.RunKeepsCanonical | main.cpp:266-273 | over any number of generations every member keeps its species order and mask |
| Evolution.Evolve | main.cpp:257-273 | the run ends with POPSIZE canonical members whose best stored fitness is at least the best stored fitness of generation 0 |
| Evolution.StaleScoreCanLead | main.cpp:270-271 | mutation moves a member without re-evaluating it, and the next ranking can put that member, with a stored fitness its particles no longer earn, at the head |

## Left out

- Console and file output (`recordData`, the `config.xyz` and `consolelog.txt` streams) and the average-fitness report: they are I/O and compute nothing the run uses.
- Reading `numNa` and `numCl` from standard input: they are parameters, typed `nat`, so negative counts are not modelled. In the program, a negative count adds no atoms of that species (main.cpp:95-96), while `numAtoms = numNa + numCl` (main.cpp:257) is then smaller than the particle list. The trailing atoms stay at the origin and take no part in placement, scoring, crossover or mutation; the only undefined behaviour is a signed overflow of `numNa + numCl`.
- `std::random_device` and the three distributions: replaced by explicit draws; the order in which the program consumes the random stream is not modelled.
- `AVGFITCUTOFF`: declared but never used.
- IEEE single-precision rounding, NaN and infinities; `float` → `int` conversion is modelled as the floor of a non-negative real. Rounding can make `perc` return a value that pushes `1 + perc*(POPSIZE-1)` to `POPSIZE`, which the real-valued model cannot show.
- The numeric values of `exp` and `sqrt`: uninterpreted (`Numerics`); `pow` is modelled only for the integer powers the evaluator uses.
- Evaluator.Fitness: the positive branch `exp(x) - 1` is only related to the sign of its input under the hypothesis `ExpAtLeastOne`, since `exp` is uninterpreted.
- Blend.Blx: the unreachable fall-through of `BLXalphaCross` when neither comparison holds (only possible for NaN) is not modelled.
- Ranking.Sort: the model fixes one tie order, the stable one, where the program's `std::sort` leaves the order of equal-fitness members unspecified. Tie order decides which tied member sits at index 0 and which tied members survive the cull. So `Evolution.Step`, `Run`, `InitialWorking` and `Evolve` describe one legal run. Their proofs use only `Sort`'s contract, a descending permutation, so the stated properties hold for any tie order.
- Mutation.MutationIndex: states the index range for real-valued draws; see the rounding remark above.
- The loops' bounds `POPSIZE` and `numAtoms` are the length of the population and, for non-negative counts, of a member's particle list; `Evolve` fixes them to the program's values, the other members hold for any size.
