/** Roulette-wheel selection with BLX-alpha crossover (`selectionCrossover`).
    The pass runs over the targets 1 .. |p|-1 in order and rewrites the
    population in place, so each scan sees the fitness of the targets already
    rewritten, and a donor may be a rewritten member or the target itself.
    The pass takes the evaluator `fit` that scores a rewritten member as a
    parameter; the generation loop passes `foo` (`Evaluator.FitnessOf`). */
module Selection {
  import opened Population
  import opened Blend
  import opened Ranking

  /** The draws of one target: the roulette draw and, per particle, the three
      unit draws blending its x, y and z. */
  datatype CrossDraw = CrossDraw(pick: real, genes: seq<Coords>)

  predicate CrossDrawOk(d: CrossDraw, n: nat) {
    Unit(d.pick) && |d.genes| == n && AllCoordsOk(d.genes)
  }

  predicate CrossDrawsOk(draws: seq<CrossDraw>, n: nat) {
    forall i :: 0 <= i < |draws| ==> CrossDrawOk(draws[i], n)
  }

  // ---------------------------------------------------------------------------
  // The roulette wheel

  /** Sum of the fitness of the first `k` members, negative ones included:
      the running total `check` of the scan. */
  function Prefix(p: seq<Member>, k: nat): real
    requires k <= |p|
  {
    if k == 0 then 0.0 else Prefix(p, k - 1) + p[k - 1].fitness
  }

  /** Sum of the non-negative fitness values of the first `k` members. */
  function WeightUpTo(p: seq<Member>, k: nat): real
    requires k <= |p|
  {
    if k == 0 then 0.0
    else WeightUpTo(p, k - 1) + (if p[k - 1].fitness >= 0.0 then p[k - 1].fitness else 0.0)
  }

  lemma {:induction false} WeightBoundsPrefix(p: seq<Member>, k: nat)
    requires k <= |p|
    ensures 0.0 <= WeightUpTo(p, k)
    ensures Prefix(p, k) <= WeightUpTo(p, k)
    ensures WeightUpTo(p, k) <= WeightUpTo(p, |p|)
    decreases k
  {
    if k > 0 {
      WeightBoundsPrefix(p, k - 1);
    }
    WeightMonotone(p, k);
  }

  lemma {:induction false} WeightMonotone(p: seq<Member>, k: nat)
    requires k <= |p|
    ensures WeightUpTo(p, k) <= WeightUpTo(p, |p|)
    decreases |p| - k
  {
    if k < |p| {
      WeightMonotone(p, k + 1);
    }
  }

  lemma {:induction false} WeightOfNonNegative(p: seq<Member>, k: nat)
    requires k <= |p|
    requires forall j :: 0 <= j < k ==> p[j].fitness >= 0.0
    ensures WeightUpTo(p, k) == Prefix(p, k)
    decreases k
  {
    if k > 0 {
      WeightOfNonNegative(p, k - 1);
    }
  }

  lemma {:induction false} WeightOfNegative(p: seq<Member>, k: nat)
    requires k <= |p|
    requires forall j :: 0 <= j < k ==> p[j].fitness < 0.0
    ensures WeightUpTo(p, k) == 0.0
    ensures k > 0 ==> Prefix(p, k) < 0.0
    decreases k
  {
    if k > 0 {
      WeightOfNegative(p, k - 1);
    }
  }

  /** The wheel's total `sum`: only non-negative fitness values add weight. It
      equals the full total when no fitness is negative, and is 0 when every
      fitness is. */
  function RouletteTotal(p: seq<Member>): (s: real)
    ensures s >= 0.0
    ensures (forall k :: 0 <= k < |p| ==> p[k].fitness >= 0.0) ==> s == Prefix(p, |p|)
    ensures (forall k :: 0 <= k < |p| ==> p[k].fitness < 0.0) ==> s == 0.0
  {
    WheelBounds(p);
    WeightUpTo(p, |p|)
  }

  /** The wheel's total bounds every running total of the scan. */
  lemma WheelBounds(p: seq<Member>)
    ensures WeightUpTo(p, |p|) >= 0.0
    ensures forall k :: 0 <= k <= |p| ==> Prefix(p, k) <= WeightUpTo(p, |p|)
    ensures (forall k :: 0 <= k < |p| ==> p[k].fitness >= 0.0) ==> WeightUpTo(p, |p|) == Prefix(p, |p|)
    ensures (forall k :: 0 <= k < |p| ==> p[k].fitness < 0.0) ==> WeightUpTo(p, |p|) == 0.0
  {
    forall k | 0 <= k <= |p|
      ensures Prefix(p, k) <= WeightUpTo(p, |p|)
    {
      WeightBoundsPrefix(p, k);
    }
    WeightBoundsPrefix(p, |p|);
    if forall k :: 0 <= k < |p| ==> p[k].fitness >= 0.0 {
      WeightOfNonNegative(p, |p|);
    }
    if forall k :: 0 <= k < |p| ==> p[k].fitness < 0.0 {
      WeightOfNegative(p, |p|);
    }
  }

  /** The running total after member `j` has reached the threshold. */
  predicate Reaches(p: seq<Member>, thr: real, j: int) {
    0 <= j < |p| && Prefix(p, j + 1) >= thr
  }

  /** `j` is the donor: the first member at which the running total reaches `thr`. */
  predicate IsDonor(p: seq<Member>, thr: real, j: int) {
    Reaches(p, thr, j) && forall k :: 0 <= k < j ==> !Reaches(p, thr, k)
  }

  /** No running total reaches `thr`: the target is left alone. */
  predicate NoDonor(p: seq<Member>, thr: real) {
    forall j :: 0 <= j < |p| ==> !Reaches(p, thr, j)
  }

  /** The scan `for j: check += p[j].fitness; if check >= rand: ...`. */
  function Scan(p: seq<Member>, thr: real, j: nat, check: real): (r: Option<nat>)
    requires j <= |p| && check == Prefix(p, j)
    requires forall k :: 0 <= k < j ==> !Reaches(p, thr, k)
    ensures r.Some? ==> IsDonor(p, thr, r.value)
    ensures r.None? ==> NoDonor(p, thr)
    decreases |p| - j
  {
    if j == |p| then None
    else
      var check' := check + p[j].fitness;
      if check' >= thr then Some(j) else Scan(p, thr, j + 1, check')
  }

  function FindDonor(p: seq<Member>, thr: real): (r: Option<nat>)
    ensures r.Some? ==> IsDonor(p, thr, r.value)
    ensures r.None? ==> NoDonor(p, thr)
  {
    Scan(p, thr, 0, 0.0)
  }

  /** The donor is unique: the scan returns it whenever it exists, and
      returns nothing exactly when no running total reaches the threshold. */
  lemma DonorIsFound(p: seq<Member>, thr: real, j: int)
    ensures IsDonor(p, thr, j) ==> FindDonor(p, thr) == Some(j)
    ensures NoDonor(p, thr) <==> FindDonor(p, thr).None?
  {
    var r := FindDonor(p, thr);
    if IsDonor(p, thr, j) && r.Some? {
      var k := r.value;
      assert IsDonor(p, thr, k);
      assert Reaches(p, thr, j) && Reaches(p, thr, k);
    }
    if r.Some? {
      assert Reaches(p, thr, r.value);
    }
  }

  /** For a non-negative threshold the donor never has negative fitness, and
      for a positive one its fitness is positive. */
  lemma DonorFitness(p: seq<Member>, thr: real, j: int)
    requires thr >= 0.0 && IsDonor(p, thr, j)
    ensures p[j].fitness >= 0.0
    ensures thr > 0.0 ==> p[j].fitness > 0.0
  {
    assert Prefix(p, j + 1) == Prefix(p, j) + p[j].fitness;
    if j > 0 {
      assert !Reaches(p, thr, j - 1);
    }
  }

  /** A threshold no larger than some running total is reached. */
  lemma ReachedWithin(p: seq<Member>, thr: real, m: nat)
    requires 1 <= m <= |p| && thr <= Prefix(p, m)
    ensures FindDonor(p, thr).Some?
  {
    assert Reaches(p, thr, m - 1);
  }

  /** A unit draw scaling a non-negative total no larger than some running
      total is reached. */
  lemma ScaledReached(p: seq<Member>, t: real, s: real, m: nat)
    requires 1 <= m <= |p| && Unit(t) && 0.0 <= s <= Prefix(p, m)
    ensures FindDonor(p, t * s).Some?
  {
    UnitScale(t, s);
    ReachedWithin(p, t * s, m);
  }

  /** When no member has negative fitness, every roulette draw finds a donor. */
  lemma DonorExists(p: seq<Member>, t: real)
    requires |p| > 0 && Unit(t)
    requires forall k :: 0 <= k < |p| ==> p[k].fitness >= 0.0
    ensures FindDonor(p, t * RouletteTotal(p)).Some?
  {
    ScaledReached(p, t, RouletteTotal(p), |p|);
  }

  /** On a ranked population the non-negative members come first, so the
      wheel total is the running total over some leading segment. */
  lemma {:induction false} RankedWeight(p: seq<Member>, k: nat) returns (m: nat)
    requires SortedDesc(p) && 1 <= k <= |p| && p[0].fitness >= 0.0
    ensures 1 <= m <= k && Prefix(p, m) == WeightUpTo(p, k)
  {
    if k == 1 {
      m := 1;
      assert Prefix(p, 1) == p[0].fitness;
    } else if p[k - 1].fitness >= 0.0 {
      WeightOfNonNegative(p, k);
      m := k;
    } else {
      m := RankedWeight(p, k - 1);
    }
  }

  /** On a ranked population whose best fitness is non-negative, the first
      scan of the pass always finds a donor. */
  lemma RankedDonorExists(p: seq<Member>, t: real)
    requires |p| > 0 && Unit(t) && SortedDesc(p) && p[0].fitness >= 0.0
    ensures FindDonor(p, t * RouletteTotal(p)).Some?
  {
    var m := RankedWeight(p, |p|);
    DonorWithin(p, t, m);
  }

  /** The scan finds a donor once the wheel total is some leading running total. */
  lemma DonorWithin(p: seq<Member>, t: real, m: nat)
    requires 1 <= m <= |p| && Unit(t) && Prefix(p, m) == WeightUpTo(p, |p|)
    ensures FindDonor(p, t * RouletteTotal(p)).Some?
  {
    ScaledReached(p, t, RouletteTotal(p), m);
  }

  // ---------------------------------------------------------------------------
  // Crossover of one target

  /** One particle of the child: free coordinates blend donor and target,
      masked ones are set to zero. */
  function CrossAtom(a: nat, target: Atom, donor: Atom, g: Coords): (r: Atom)
    requires CoordsOk(g)
    ensures r.name == target.name
    ensures AtomMasked(a, r)
    ensures FreeX(a) ==> Lower(donor.x, target.x) <= r.x <= Upper(donor.x, target.x)
    ensures FreeY(a) ==> Lower(donor.y, target.y) <= r.y <= Upper(donor.y, target.y)
    ensures FreeZ(a) ==> Lower(donor.z, target.z) <= r.z <= Upper(donor.z, target.z)
  {
    Atom(target.name,
         if FreeX(a) then Blx(donor.x, target.x, g.tx) else 0.0,
         if FreeY(a) then Blx(donor.y, target.y, g.ty) else 0.0,
         if FreeZ(a) then Blx(donor.z, target.z, g.tz) else 0.0)
  }

  /** The child's particles, index by index. */
  function CrossParticles(target: seq<Atom>, donor: seq<Atom>, genes: seq<Coords>): (r: seq<Atom>)
    requires |donor| == |target| == |genes| && AllCoordsOk(genes)
    ensures |r| == |target|
    ensures forall a :: 0 <= a < |r| ==> r[a].name == target[a].name
    ensures Masked(r)
  {
    seq(|target|, a requires 0 <= a < |target| => CrossAtom(a, target[a], donor[a], genes[a]))
  }

  /** The rewritten target, storing the fitness the evaluator `fit` (the
      program's `foo`) assigns to its new particles. */
  function Crossed(fit: seq<Atom> -> real, target: Member, donor: Member, genes: seq<Coords>): (r: Member)
    requires |donor.particles| == |target.particles| == |genes| && AllCoordsOk(genes)
    ensures |r.particles| == |target.particles|
    ensures forall a :: 0 <= a < |r.particles| ==> r.particles[a].name == target.particles[a].name
    ensures Masked(r.particles)
    ensures Scored(fit, r)
  {
    var ps := CrossParticles(target.particles, donor.particles, genes);
    Member(fit(ps), ps)
  }

  /** Crossing a masked member with itself leaves its particles where they are. */
  lemma CrossWithSelf(fit: seq<Atom> -> real, m: Member, genes: seq<Coords>)
    requires |m.particles| == |genes| && AllCoordsOk(genes) && Masked(m.particles)
    ensures Crossed(fit, m, m, genes).particles == m.particles
    ensures Scored(fit, m) ==> Crossed(fit, m, m, genes) == m
  {
    var r := Crossed(fit, m, m, genes).particles;
    forall a | 0 <= a < |r|
      ensures r[a] == m.particles[a]
    {
      assert AtomMasked(a, m.particles[a]);
    }
  }

  // ---------------------------------------------------------------------------
  // The pass over the targets

  /** The thresholds `rand = perc(rd) * sum` of the targets, every one drawn
      against the total `sum` fixed before the pass. */
  function Thresholds(draws: seq<CrossDraw>, sum: real): seq<real> {
    seq(|draws|, k requires 0 <= k < |draws| => draws[k].pick * sum)
  }

  /** Target `i` with threshold `thr`: the target is rewritten from its donor,
      or left alone when the scan finds none. The donor is the one `FindDonor`
      returns, characterised by `IsDonor` and `DonorIsFound`. */
  function CrossStep(fit: seq<Atom> -> real, p: seq<Member>, n: nat, thr: real, genes: seq<Coords>, i: nat): (r: seq<Member>)
    requires Shaped(p, n) && |genes| == n && AllCoordsOk(genes) && i < |p|
    ensures |r| == |p| && Shaped(r, n)
    ensures forall k :: 0 <= k < |p| && k != i ==> r[k] == p[k]
    ensures FindDonor(p, thr).Some? ==> r[i] == Crossed(fit, p[i], p[FindDonor(p, thr).value], genes)
    ensures FindDonor(p, thr).None? ==> r == p
  {
    match FindDonor(p, thr)
    case None => p
    case Some(j) => p[i := Crossed(fit, p[i], p[j], genes)]
  }

  /** The targets `i`, `i+1`, ..., `|p|-1` in turn, each step seeing the last. */
  function CrossPass(fit: seq<Atom> -> real, p: seq<Member>, n: nat, thrs: seq<real>, draws: seq<CrossDraw>, i: nat): (r: seq<Member>)
    requires Shaped(p, n) && |draws| == |p| && |thrs| == |p| && CrossDrawsOk(draws, n)
    ensures |r| == |p| && Shaped(r, n)
    ensures forall k :: 0 <= k < i && k < |p| ==> r[k] == p[k]
    decreases |p| - i
  {
    if i >= |p| then p
    else CrossPass(fit, CrossStep(fit, p, n, thrs[i], draws[i].genes, i), n, thrs, draws, i + 1)
  }

  /** `selectionCrossover`: the wheel total is taken once, then targets
      1 .. |p|-1 are processed. Member 0 is never rewritten. */
  function SelectionCrossover(fit: seq<Atom> -> real, p: seq<Member>, n: nat, draws: seq<CrossDraw>): (r: seq<Member>)
    requires Shaped(p, n) && |draws| == |p| && CrossDrawsOk(draws, n)
    ensures |r| == |p| && Shaped(r, n)
    ensures |p| > 0 ==> r[0] == p[0]
  {
    CrossPass(fit, p, n, Thresholds(draws, RouletteTotal(p)), draws, 1)
  }

  // ---------------------------------------------------------------------------
  // Properties of the pass

  /** A member after the pass is its old self, or a rewritten child that is
      masked and carries the fitness of its new particles. */
  predicate Rewritten(fit: seq<Atom> -> real, m: Member) {
    Masked(m.particles) && Scored(fit, m)
  }

  lemma {:induction false} CrossPassOutcome(fit: seq<Atom> -> real, p: seq<Member>, n: nat, thrs: seq<real>, draws: seq<CrossDraw>, i: nat)
    requires Shaped(p, n) && |draws| == |p| && |thrs| == |p| && CrossDrawsOk(draws, n)
    ensures var r := CrossPass(fit, p, n, thrs, draws, i);
      forall k :: i <= k < |p| ==> r[k] == p[k] || Rewritten(fit, r[k])
    decreases |p| - i
  {
    if i < |p| {
      var q := CrossStep(fit, p, n, thrs[i], draws[i].genes, i);
      CrossPassOutcome(fit, q, n, thrs, draws, i + 1);
      match FindDonor(p, thrs[i])
      case None =>
      case Some(j) =>
    }
  }

  /** After `selectionCrossover` every member other than the best is either
      untouched or a masked, freshly evaluated child. */
  lemma SelectionCrossoverOutcome(fit: seq<Atom> -> real, p: seq<Member>, n: nat, draws: seq<CrossDraw>)
    requires Shaped(p, n) && |draws| == |p| && CrossDrawsOk(draws, n)
    ensures var r := SelectionCrossover(fit, p, n, draws);
      forall k :: 1 <= k < |p| ==> r[k] == p[k] || Rewritten(fit, r[k])
  {
    CrossPassOutcome(fit, p, n, Thresholds(draws, RouletteTotal(p)), draws, 1);
  }

  lemma CrossStepKeepsCanonical(fit: seq<Atom> -> real, p: seq<Member>, names: seq<string>, thr: real, genes: seq<Coords>, i: nat)
    requires AllCanonical(p, names) && |genes| == |names| && AllCoordsOk(genes) && i < |p|
    ensures AllCanonical(CrossStep(fit, p, |names|, thr, genes, i), names)
  {
    CanonicalIsShaped(p, names);
  }

  lemma {:induction false} CrossPassKeepsCanonical(fit: seq<Atom> -> real, p: seq<Member>, names: seq<string>, thrs: seq<real>, draws: seq<CrossDraw>, i: nat)
    requires AllCanonical(p, names) && |draws| == |p| && |thrs| == |p| && CrossDrawsOk(draws, |names|)
    ensures AllCanonical(CrossPass(fit, p, |names|, thrs, draws, i), names)
    decreases |p| - i
  {
    CanonicalIsShaped(p, names);
    if i < |p| {
      CrossStepKeepsCanonical(fit, p, names, thrs[i], draws[i].genes, i);
      CrossPassKeepsCanonical(fit, CrossStep(fit, p, |names|, thrs[i], draws[i].genes, i), names, thrs, draws, i + 1);
    }
  }

  /** The pass keeps the species order and the mask of every member. */
  lemma SelectionCrossoverKeepsCanonical(fit: seq<Atom> -> real, p: seq<Member>, names: seq<string>, draws: seq<CrossDraw>)
    requires AllCanonical(p, names) && |draws| == |p| && CrossDrawsOk(draws, |names|)
    ensures AllCanonical(SelectionCrossover(fit, p, |names|, draws), names)
  {
    CanonicalIsShaped(p, names);
    CrossPassKeepsCanonical(fit, p, names, Thresholds(draws, RouletteTotal(p)), draws, 1);
  }

  lemma {:induction false} CrossPassKeepsScored(fit: seq<Atom> -> real, p: seq<Member>, n: nat, thrs: seq<real>, draws: seq<CrossDraw>, i: nat)
    requires Shaped(p, n) && |draws| == |p| && |thrs| == |p| && CrossDrawsOk(draws, n)
    requires AllScored(fit, p)
    ensures AllScored(fit, CrossPass(fit, p, n, thrs, draws, i))
    decreases |p| - i
  {
    if i < |p| {
      var q := CrossStep(fit, p, n, thrs[i], draws[i].genes, i);
      CrossStepKeepsScored(fit, p, n, thrs[i], draws[i].genes, i);
      CrossPassKeepsScored(fit, q, n, thrs, draws, i + 1);
    }
  }

  lemma CrossStepKeepsScored(fit: seq<Atom> -> real, p: seq<Member>, n: nat, thr: real, genes: seq<Coords>, i: nat)
    requires Shaped(p, n) && |genes| == n && AllCoordsOk(genes) && i < |p|
    requires AllScored(fit, p)
    ensures AllScored(fit, CrossStep(fit, p, n, thr, genes, i))
  {
    var q := CrossStep(fit, p, n, thr, genes, i);
    match FindDonor(p, thr)
    case None =>
    case Some(j) =>
      assert Scored(fit, q[i]);
  }

  /** If every fitness was the evaluation of its member, it still is afterwards. */
  lemma SelectionCrossoverKeepsScored(fit: seq<Atom> -> real, p: seq<Member>, n: nat, draws: seq<CrossDraw>)
    requires Shaped(p, n) && |draws| == |p| && CrossDrawsOk(draws, n)
    requires AllScored(fit, p)
    ensures AllScored(fit, SelectionCrossover(fit, p, n, draws))
  {
    CrossPassKeepsScored(fit, p, n, Thresholds(draws, RouletteTotal(p)), draws, 1);
  }

  /** With every fitness negative, no running total reaches a non-negative
      threshold, so no step of the pass changes anything. */
  lemma {:induction false} CrossPassIdle(fit: seq<Atom> -> real, p: seq<Member>, n: nat, thrs: seq<real>, draws: seq<CrossDraw>, i: nat)
    requires Shaped(p, n) && |draws| == |p| && |thrs| == |p| && CrossDrawsOk(draws, n)
    requires forall k :: 0 <= k < |p| ==> p[k].fitness < 0.0
    requires forall k :: 0 <= k < |thrs| ==> thrs[k] >= 0.0
    ensures CrossPass(fit, p, n, thrs, draws, i) == p
    decreases |p| - i
  {
    if i < |p| {
      forall j | 0 <= j < |p|
        ensures !Reaches(p, thrs[i], j)
      {
        WeightOfNegative(p, j + 1);
      }
      DonorIsFound(p, thrs[i], 0);
      assert CrossStep(fit, p, n, thrs[i], draws[i].genes, i) == p;
      CrossPassIdle(fit, p, n, thrs, draws, i + 1);
    }
  }

  /** When every fitness is negative the wheel total is 0, no running total
      reaches the threshold 0, and the pass changes nothing. */
  lemma AllNegativeIsNoOp(fit: seq<Atom> -> real, p: seq<Member>, n: nat, draws: seq<CrossDraw>)
    requires Shaped(p, n) && |draws| == |p| && CrossDrawsOk(draws, n)
    requires forall k :: 0 <= k < |p| ==> p[k].fitness < 0.0
    ensures SelectionCrossover(fit, p, n, draws) == p
  {
    assert RouletteTotal(p) == 0.0;
    var thrs := Thresholds(draws, 0.0);
    assert forall k :: 0 <= k < |thrs| ==> thrs[k] == draws[k].pick * 0.0 == 0.0;
    CrossPassIdle(fit, p, n, thrs, draws, 1);
  }

  /** The total is taken once, before the pass, so a later scan can miss even
      on a ranked population with no negative fitness. With fitness 5, 4, 1
      (total 10) and the draw 0.95 the threshold is 9.5, reached first at
      member 2. Target 1 is blended with member 2; once its child scores -100,
      no running total reaches 9.5 and target 2 is left alone. The members
      hold no particles and the -100 is a hypothesis on the evaluator `fit`,
      which stays abstract here; the program's `foo` gives an empty list
      exp(0) - 1 = 0. Any child score below 3.5 keeps the running totals
      (5, 5 + f, 6 + f) under 9.5, and `Fitness` gives a negative score to
      every child with positive potential, such as a child of two particles
      within 0.1 of each other, whose potential is 9999. */
  lemma StaleTotalCanLeaveTargetAlone(fit: seq<Atom> -> real, p: seq<Member>, draws: seq<CrossDraw>)
    requires p == [Member(5.0, []), Member(4.0, []), Member(1.0, [])]
    requires draws == [CrossDraw(0.95, []), CrossDraw(0.95, []), CrossDraw(0.95, [])]
    requires fit([]) == -100.0
    ensures SortedDesc(p) && RouletteTotal(p) == 10.0
    ensures FindDonor(p, 0.95 * RouletteTotal(p)) == Some(2)
    ensures SelectionCrossover(fit, p, 0, draws) == [p[0], Member(-100.0, []), p[2]]
  {
    FirstScanReachesLast(p);
    var thrs := Thresholds(draws, 10.0);
    assert thrs[1] == 9.5 && thrs[2] == 9.5;
    var q := CrossStep(fit, p, 0, 9.5, [], 1);
    assert q == [p[0], Member(-100.0, []), p[2]];
    LaterScanMisses(q);
    assert CrossStep(fit, q, 0, 9.5, [], 2) == q;
    assert CrossPass(fit, p, 0, thrs, draws, 1) == CrossPass(fit, q, 0, thrs, draws, 2);
    assert CrossPass(fit, q, 0, thrs, draws, 2) == CrossPass(fit, q, 0, thrs, draws, 3);
  }

  /** Fitness 5, 4, 1: the total is 10 and the threshold 9.5 is first reached at member 2. */
  lemma FirstScanReachesLast(p: seq<Member>)
    requires p == [Member(5.0, []), Member(4.0, []), Member(1.0, [])]
    ensures RouletteTotal(p) == 10.0
    ensures FindDonor(p, 9.5) == Some(2)
  {
    assert Prefix(p, 1) == Prefix(p, 0) + p[0].fitness == 5.0;
    assert Prefix(p, 2) == Prefix(p, 1) + p[1].fitness == 9.0;
    assert Prefix(p, 3) == Prefix(p, 2) + p[2].fitness == 10.0;
    WeightOfNonNegative(p, 3);
    assert IsDonor(p, 9.5, 2);
    DonorIsFound(p, 9.5, 2);
  }

  /** Fitness 5, -100, 1: no running total reaches 9.5. */
  lemma LaterScanMisses(q: seq<Member>)
    requires |q| == 3 && q[0].fitness == 5.0 && q[1].fitness == -100.0 && q[2].fitness == 1.0
    ensures FindDonor(q, 9.5) == None
  {
    assert Prefix(q, 1) == Prefix(q, 0) + q[0].fitness == 5.0;
    assert Prefix(q, 2) == Prefix(q, 1) + q[1].fitness == -95.0;
    assert Prefix(q, 3) == Prefix(q, 2) + q[2].fitness == -94.0;
    assert NoDonor(q, 9.5);
    DonorIsFound(q, 9.5, 0);
  }

  /** While member 0 is unchanged and is the donor of every remaining target
      of `p0`, target `k` is blended with the best. */
  lemma {:induction false} CrossPassFromBest(fit: seq<Atom> -> real, p0: seq<Member>, p: seq<Member>, n: nat, thrs: seq<real>, draws: seq<CrossDraw>, i: nat, k: nat)
    requires Shaped(p, n) && |draws| == |p| && |thrs| == |p| && CrossDrawsOk(draws, n)
    requires 1 <= i <= k < |p| && |p0| == |p| && p0[0] == p[0]
    requires forall j :: i <= j < |p| ==> IsDonor(p0, thrs[j], 0)
    ensures CrossPass(fit, p, n, thrs, draws, i)[k] == Crossed(fit, p[k], p[0], draws[k].genes)
    decreases k - i
  {
    if i == k {
      DonorAtHead(p0, p, thrs[i]);
      PassFirstFromBest(fit, p, n, thrs, draws, i);
    } else {
      var q := CrossStep(fit, p, n, thrs[i], draws[i].genes, i);
      PassSkipsAhead(fit, p, n, thrs, draws, i, k);
      CrossPassFromBest(fit, p0, q, n, thrs, draws, i + 1, k);
    }
  }

  /** The first target of the rest of the pass is blended with the best when
      member 0 is its donor; later steps do not touch it again. */
  lemma PassFirstFromBest(fit: seq<Atom> -> real, p: seq<Member>, n: nat, thrs: seq<real>, draws: seq<CrossDraw>, i: nat)
    requires Shaped(p, n) && |draws| == |p| && |thrs| == |p| && CrossDrawsOk(draws, n) && 1 <= i < |p|
    requires IsDonor(p, thrs[i], 0)
    ensures CrossPass(fit, p, n, thrs, draws, i)[i] == Crossed(fit, p[i], p[0], draws[i].genes)
  {
    DonorIsFound(p, thrs[i], 0);
    var q := CrossStep(fit, p, n, thrs[i], draws[i].genes, i);
    assert q[i] == Crossed(fit, p[i], p[0], draws[i].genes);
    assert CrossPass(fit, p, n, thrs, draws, i) == CrossPass(fit, q, n, thrs, draws, i + 1);
  }

  /** Stepping past target `i` leaves member 0 and the later target `k` as they were. */
  lemma PassSkipsAhead(fit: seq<Atom> -> real, p: seq<Member>, n: nat, thrs: seq<real>, draws: seq<CrossDraw>, i: nat, k: nat)
    requires Shaped(p, n) && |draws| == |p| && |thrs| == |p| && CrossDrawsOk(draws, n) && 1 <= i < k < |p|
    ensures var q := CrossStep(fit, p, n, thrs[i], draws[i].genes, i);
      && CrossPass(fit, p, n, thrs, draws, i) == CrossPass(fit, q, n, thrs, draws, i + 1)
      && q[0] == p[0] && q[k] == p[k]
  {
  }

  /** A threshold no larger than the best member's fitness selects the best. */
  lemma BestIsDonor(p: seq<Member>, thr: real)
    requires |p| > 0 && thr <= p[0].fitness
    ensures IsDonor(p, thr, 0)
  {
    assert Prefix(p, 1) == p[0].fitness;
  }

  /** When the best member alone carries the whole wheel weight (for example,
      when every fitness is 0), the threshold is always reached at member 0:
      every target is crossed with the best member, nothing is left alone. */
  lemma BestCarriesWheel(fit: seq<Atom> -> real, p: seq<Member>, n: nat, draws: seq<CrossDraw>)
    requires Shaped(p, n) && |draws| == |p| && CrossDrawsOk(draws, n)
    requires |p| > 0 && p[0].fitness >= RouletteTotal(p)
    ensures var r := SelectionCrossover(fit, p, n, draws);
      forall k :: 1 <= k < |p| ==> r[k] == Crossed(fit, p[k], p[0], draws[k].genes)
  {
    var thrs := Thresholds(draws, RouletteTotal(p));
    ThresholdsAtBest(p, n, RouletteTotal(p), draws);
    forall k | 1 <= k < |p|
      ensures CrossPass(fit, p, n, thrs, draws, 1)[k] == Crossed(fit, p[k], p[0], draws[k].genes)
    {
      CrossPassFromBest(fit, p, p, n, thrs, draws, 1, k);
    }
  }

  /** Every draw of the pass selects member 0 when its fitness covers the total. */
  lemma ThresholdsAtBest(p: seq<Member>, n: nat, sum: real, draws: seq<CrossDraw>)
    requires |p| > 0 && 0.0 <= sum <= p[0].fitness && CrossDrawsOk(draws, n)
    ensures var thrs := Thresholds(draws, sum);
      forall j :: 0 <= j < |thrs| ==> IsDonor(p, thrs[j], 0)
  {
    var thrs := Thresholds(draws, sum);
    forall j | 0 <= j < |thrs|
      ensures IsDonor(p, thrs[j], 0)
    {
      assert CrossDrawOk(draws[j], n) && thrs[j] == draws[j].pick * sum;
      UnitScale(draws[j].pick, sum);
      BestIsDonor(p, thrs[j]);
    }
  }

  /** Whether member 0 is the donor depends only on member 0. */
  lemma DonorAtHead(p: seq<Member>, q: seq<Member>, thr: real)
    requires |p| > 0 && |q| > 0 && q[0] == p[0] && IsDonor(p, thr, 0)
    ensures IsDonor(q, thr, 0)
  {
    assert Prefix(p, 1) == p[0].fitness;
    assert Prefix(q, 1) == q[0].fitness;
  }

  /** The all-zero population: every target is crossed with member 0. */
  lemma AllZeroCrossesWithBest(fit: seq<Atom> -> real, p: seq<Member>, n: nat, draws: seq<CrossDraw>)
    requires Shaped(p, n) && |draws| == |p| && CrossDrawsOk(draws, n)
    requires |p| > 0 && forall k :: 0 <= k < |p| ==> p[k].fitness == 0.0
    ensures var r := SelectionCrossover(fit, p, n, draws);
      forall k :: 1 <= k < |p| ==> r[k] == Crossed(fit, p[k], p[0], draws[k].genes)
  {
    assert RouletteTotal(p) == Prefix(p, |p|);
    assert Prefix(p, |p|) == 0.0 by {
      WeightOfNonNegative(p, |p|);
      ZeroPrefix(p, |p|);
    }
    BestCarriesWheel(fit, p, n, draws);
  }

  lemma {:induction false} ZeroPrefix(p: seq<Member>, k: nat)
    requires k <= |p|
    requires forall j :: 0 <= j < |p| ==> p[j].fitness == 0.0
    ensures Prefix(p, k) == 0.0
    decreases k
  {
    if k > 0 {
      ZeroPrefix(p, k - 1);
    }
  }
}
