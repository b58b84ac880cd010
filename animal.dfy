/**
 * The per-animal rules of the simulation: aging, weight loss, grazing, birth, migration,
 * death and the predator's hunt. Random draws are inputs: a Bernoulli draw is given as the
 * uniform sample u in [0, 1) that numpy compares with the probability, a normal draw as the
 * value it produced.
 */
module Animals {
  import opened Wrappers
  import opened Seqs

  datatype Species = Herbivore | Carnivore

  /** One species' parameter table (the animal's dictionary p). */
  datatype SpeciesParams = SpeciesParams(
    wBirth: real, sigmaBirth: real, beta: real, eta: real,
    aHalf: real, phiAge: real, wHalf: real, phiWeight: real,
    mu: real, gamma: real, zeta: real, xi: real, omega: real,
    F: real, deltaPhiMax: real)

  /** Herbivore defaults. The herbivore table has no DeltaPhiMax entry; no herbivore rule reads it. */
  const HerbivoreDefaults := SpeciesParams(8.0, 1.5, 0.9, 0.05, 40.0, 0.6, 10.0, 0.1,
                                           0.25, 0.2, 3.5, 1.2, 0.4, 10.0, 0.0)

  const CarnivoreDefaults := SpeciesParams(6.0, 1.0, 0.75, 0.125, 40.0, 0.3, 4.0, 0.4,
                                           0.4, 0.8, 3.5, 1.1, 0.8, 50.0, 10.0)

  function DefaultParams(s: Species): SpeciesParams
  {
    match s
    case Herbivore => HerbivoreDefaults
    case Carnivore => CarnivoreDefaults
  }

  /**
   * The fitness of an animal as a function of its parameter table, age and weight. The
   * logistic formula uses exp on floats and is not modelled; its range is UnitRange.
   */
  type FitnessFn = (SpeciesParams, int, real) -> real

  /** q(+1, age, ...) * q(-1, weight, ...) is a product of two logistic factors, so lies in [0, 1]. */
  ghost predicate UnitRange(fit: FitnessFn)
  {
    forall p, a, w :: 0.0 <= fit(p, a, w) <= 1.0
  }

  /** The fitness of an animal with table p, age a and weight w. */
  function FitnessValue(fit: FitnessFn, p: SpeciesParams, a: int, w: real): (r: real)
    ensures UnitRange(fit) ==> 0.0 <= r <= 1.0
  {
    fit(p, a, w)
  }

  /** np.random.choice([True, False], p=[q, 1 - q]) when the generator's uniform sample is u. */
  function Bernoulli(q: real, u: real): bool
  {
    u < q
  }

  /** weight - weight * eta */
  function AfterWeightLoss(weight: real, eta: real): (r: real)
    ensures 0.0 <= eta <= 1.0 && 0.0 <= weight ==> 0.0 <= r <= weight
  {
    assert 0.0 <= eta <= 1.0 && 0.0 <= weight ==> weight * eta <= weight * 1.0;
    weight - weight * eta
  }

  /**
   * A herbivore of the given weight asks for amount = beta * F from a cell holding fodder;
   * the result is the new (weight, fodder).
   */
  function Graze(weight: real, fodder: real, amount: real): (r: (real, real))
    ensures r.0 + r.1 == weight + fodder
    ensures fodder >= 0.0 ==> r.1 >= 0.0
    ensures amount >= 0.0 ==> r.0 - weight == Min(amount, Max(fodder, 0.0))
  {
    if amount <= fodder then (weight + amount, fodder - amount)
    else if fodder > 0.0 then (weight + fodder, 0.0)
    else (weight, fodder)
  }

  /** What a herbivore asks for in one meal: beta * F. */
  function Intake(p: SpeciesParams): real
  {
    p.beta * p.F
  }

  function Min(a: real, b: real): real { if a <= b then a else b }
  function Max(a: real, b: real): real { if a >= b then a else b }

  /** A cell without fodder feeds nobody. */
  lemma EmptyPastureFeedsNobody(weight: real, amount: real)
    requires amount > 0.0
    ensures Graze(weight, 0.0, amount) == (weight, 0.0)
  {
  }

  /** The weight a mother needs before she can give birth: zeta * (w_birth + sigma_birth). */
  function BirthThreshold(p: SpeciesParams): real
  {
    p.zeta * (p.wBirth + p.sigmaBirth)
  }

  /** The birth probability as the code computes it: gamma * fitness * n_same - 1. */
  function BirthProbability(p: SpeciesParams, fitness: real, nSame: int): real
  {
    p.gamma * fitness * (nSame as real) - 1.0
  }

  /** Whether a birth is drawn: certain at probability 1 or more, never at 0 or less. */
  function BirthDrawn(prob: real, u: real): bool
  {
    if prob >= 1.0 then true
    else if 0.0 < prob < 1.0 then Bernoulli(prob, u)
    else false
  }

  /**
   * The outcome of give_birth for a mother of the given fitness and weight among nSame
   * animals of her species: Some(birth weight) for a birth, None otherwise. u is the
   * Bernoulli sample and birthWeight the normal sample.
   */
  function BirthOutcome(p: SpeciesParams, fitness: real, weight: real, nSame: int,
                        u: real, birthWeight: real): (r: Option<real>)
    ensures r.Some? ==> r.value == birthWeight && birthWeight < weight
  {
    if weight < BirthThreshold(p) then None
    else if BirthDrawn(BirthProbability(p, fitness, nSame), u) then
      if birthWeight < weight then Some(birthWeight) else None
    else None
  }

  /** What a birth costs the mother: xi times the newborn's weight. */
  function BirthLoss(p: SpeciesParams, birthWeight: real): real
  {
    p.xi * birthWeight
  }

  lemma NoBirthBelowThreshold(p: SpeciesParams, fitness: real, weight: real, nSame: int,
                              u: real, birthWeight: real)
    requires weight < BirthThreshold(p)
    ensures BirthOutcome(p, fitness, weight, nSame, u, birthWeight) == None
  {
  }

  lemma CertainBirth(p: SpeciesParams, fitness: real, weight: real, nSame: int,
                     u: real, birthWeight: real)
    requires weight >= BirthThreshold(p) && BirthProbability(p, fitness, nSame) >= 1.0
    requires birthWeight < weight
    ensures BirthOutcome(p, fitness, weight, nSame, u, birthWeight) == Some(birthWeight)
  {
  }

  lemma NoBirthWithoutChance(p: SpeciesParams, fitness: real, weight: real, nSame: int,
                             u: real, birthWeight: real)
    requires BirthProbability(p, fitness, nSame) <= 0.0
    ensures BirthOutcome(p, fitness, weight, nSame, u, birthWeight) == None
  {
  }

  lemma HeavyNewbornAborts(p: SpeciesParams, fitness: real, weight: real, nSame: int,
                           u: real, birthWeight: real)
    requires birthWeight >= weight
    ensures BirthOutcome(p, fitness, weight, nSame, u, birthWeight) == None
  {
  }

  /**
   * Because of the "- 1", an animal can only give birth when gamma * n_same exceeds 1:
   * with the herbivore default gamma = 0.2, a cell of at most five herbivores has no births.
   */
  lemma {:induction false} SmallHerdsDoNotBreed(p: SpeciesParams, fitness: real, weight: real,
                                                nSame: int, u: real, birthWeight: real)
    requires 0.0 <= fitness <= 1.0 && 0.0 <= p.gamma && 0 <= nSame
    requires p.gamma * (nSame as real) <= 1.0
    ensures BirthOutcome(p, fitness, weight, nSame, u, birthWeight) == None
  {
    var g := p.gamma * (nSame as real);
    assert (nSame as real) >= 0.0;
    assert 0.0 <= g;
    assert p.gamma * fitness * (nSame as real) == g * fitness;
    assert g * (1.0 - fitness) >= 0.0;
    assert g * fitness <= g;
    assert BirthProbability(p, fitness, nSame) == g * fitness - 1.0;
    NoBirthWithoutChance(p, fitness, weight, nSame, u, birthWeight);
  }

  /** death(): certain at weight <= 0, otherwise drawn with probability omega * (1 - fitness). */
  function DeathDrawn(p: SpeciesParams, fitness: real, weight: real, u: real): (dies: bool)
    ensures !dies ==> weight > 0.0
  {
    if weight <= 0.0 then true else Bernoulli(p.omega * (1.0 - fitness), u)
  }

  /**
   * migrate()'s draw with probability mu * fitness: never for a table with mu <= 0, always
   * when mu * fitness reaches 1.
   */
  function MigrationDrawn(p: SpeciesParams, fitness: real, u: real): (r: bool)
    ensures 0.0 <= fitness && 0.0 <= u && p.mu <= 0.0 ==> !r
    ensures u < 1.0 && p.mu * fitness >= 1.0 ==> r
  {
    assert 0.0 <= fitness && p.mu <= 0.0 ==> p.mu * fitness <= 0.0;
    Bernoulli(p.mu * fitness, u)
  }

  /** The decision for one prey whose fitness is diff below the predator's. */
  function KillDecision(diff: real, deltaPhiMax: real, u: real): bool
  {
    if diff <= 0.0 then false
    else if diff < deltaPhiMax then Bernoulli(diff / deltaPhiMax, u)
    else true
  }

  /** The state of the hunt after the first n prey: which were killed, and the weight eaten. */
  datatype Hunt = Hunt(kills: seq<bool>, consumed: real)

  /** The weight a predator puts on after eating consumed: beta * min(consumed, F). */
  function Gain(consumed: real, p: SpeciesParams): real
  {
    Cap(consumed, p.F) * p.beta
  }

  function Cap(consumed: real, F: real): real
  {
    if consumed > F then F else consumed
  }

  /** For each prey, whether a still hungry predator of fitness predFitness would kill it. */
  function KillWishes(predFitness: real, deltaPhiMax: real, fits: seq<real>, draws: seq<real>): (r: seq<bool>)
    requires |fits| == |draws|
    ensures |r| == |fits|
    ensures forall i :: 0 <= i < |r| && predFitness <= fits[i] ==> !r[i]
    ensures forall i :: 0 <= i < |r| && predFitness > fits[i] && predFitness - fits[i] >= deltaPhiMax ==> r[i]
  {
    seq(|fits|, i requires 0 <= i < |fits| => KillDecision(predFitness - fits[i], deltaPhiMax, draws[i]))
  }

  /**
   * The hunt over the first n prey in order: prey i is killed when the predator has eaten
   * less than F so far and wishes[i] holds, and then its weight is added to what was eaten.
   */
  function HuntAfter(F: real, wishes: seq<bool>, weights: seq<real>, n: nat): (h: Hunt)
    requires |wishes| == |weights| && n <= |weights|
    ensures |h.kills| == n
  {
    if n == 0 then Hunt([], 0.0)
    else
      var h := HuntAfter(F, wishes, weights, n - 1);
      var k := h.consumed < F && wishes[n - 1];
      Hunt(h.kills + [k], h.consumed + (if k then weights[n - 1] else 0.0))
  }

  lemma {:induction false} HuntPrefix(F: real, wishes: seq<bool>, weights: seq<real>, m: nat, n: nat)
    requires |wishes| == |weights| && m <= n <= |weights|
    ensures HuntAfter(F, wishes, weights, n).kills[..m] == HuntAfter(F, wishes, weights, m).kills
  {
    if m < n {
      HuntPrefix(F, wishes, weights, m, n - 1);
      var h := HuntAfter(F, wishes, weights, n - 1);
      assert HuntAfter(F, wishes, weights, n).kills[..m] == h.kills[..m];
    }
  }

  /** The decision for prey j, read off the completed hunt. */
  lemma {:induction false} HuntDecisionAt(F: real, wishes: seq<bool>, weights: seq<real>, j: nat, n: nat)
    requires |wishes| == |weights| && j < n <= |weights|
    ensures HuntAfter(F, wishes, weights, n).kills[j]
         == (HuntAfter(F, wishes, weights, j).consumed < F && wishes[j])
  {
    HuntPrefix(F, wishes, weights, j + 1, n);
    var full := HuntAfter(F, wishes, weights, n).kills;
    assert full[j] == full[..j + 1][j];
  }

  predicate HuntInputs(fits: seq<real>, weights: seq<real>, draws: seq<real>)
  {
    |fits| == |weights| == |draws|
  }

  /** A prey at least as fit as the predator is never killed. */
  lemma NeverKillsTheFitter(predFitness: real, F: real, deltaPhiMax: real, fits: seq<real>,
                            weights: seq<real>, draws: seq<real>, j: nat)
    requires HuntInputs(fits, weights, draws) && j < |fits|
    requires predFitness - fits[j] <= 0.0
    ensures !HuntAfter(F, KillWishes(predFitness, deltaPhiMax, fits, draws), weights, |fits|).kills[j]
  {
    HuntDecisionAt(F, KillWishes(predFitness, deltaPhiMax, fits, draws), weights, j, |fits|);
  }

  /** A prey reached while the predator is still hungry, and DeltaPhiMax weaker, is killed. */
  lemma CertainKill(predFitness: real, F: real, deltaPhiMax: real, fits: seq<real>,
                    weights: seq<real>, draws: seq<real>, j: nat)
    requires HuntInputs(fits, weights, draws) && j < |fits| && deltaPhiMax > 0.0
    requires predFitness - fits[j] >= deltaPhiMax
    requires HuntAfter(F, KillWishes(predFitness, deltaPhiMax, fits, draws), weights, j).consumed < F
    ensures HuntAfter(F, KillWishes(predFitness, deltaPhiMax, fits, draws), weights, |fits|).kills[j]
  {
    HuntDecisionAt(F, KillWishes(predFitness, deltaPhiMax, fits, draws), weights, j, |fits|);
  }

  predicate NonNegative(s: seq<real>)
  {
    forall i :: 0 <= i < |s| ==> s[i] >= 0.0
  }

  lemma {:induction false} HuntConsumptionGrows(F: real, wishes: seq<bool>, weights: seq<real>,
                                                j: nat, k: nat)
    requires |wishes| == |weights| && j <= k <= |weights| && NonNegative(weights)
    ensures HuntAfter(F, wishes, weights, j).consumed <= HuntAfter(F, wishes, weights, k).consumed
  {
    if j < k {
      HuntConsumptionGrows(F, wishes, weights, j, k - 1);
    }
  }

  /** Once the predator has eaten F, it kills no further prey. */
  lemma SatedPredatorStops(F: real, wishes: seq<bool>, weights: seq<real>, j: nat, k: nat)
    requires |wishes| == |weights| && j <= k < |weights| && NonNegative(weights)
    requires HuntAfter(F, wishes, weights, j).consumed >= F
    ensures !HuntAfter(F, wishes, weights, |weights|).kills[k]
  {
    HuntConsumptionGrows(F, wishes, weights, j, k);
    HuntDecisionAt(F, wishes, weights, k, |weights|);
  }

  /** What the loop of kill_prey keeps after the first i prey: its kills and intake follow the hunt. */
  ghost predicate HuntFollowed<T>(F: real, wishes: seq<bool>, weights: seq<real>, prey: seq<T>,
                                  i: nat, kills: seq<bool>, killed: seq<T>, consumption: real)
  {
    |wishes| == |weights| == |prey| && i <= |prey| && |kills| == i &&
    Hunt(kills, consumption) == HuntAfter(F, wishes, weights, i) &&
    killed == Select(prey[..i], kills)
  }

  lemma HuntFollowedStep<T>(F: real, wishes: seq<bool>, weights: seq<real>, prey: seq<T>,
                            i: nat, kills: seq<bool>, killed: seq<T>, consumption: real, k: bool)
    requires HuntFollowed(F, wishes, weights, prey, i, kills, killed, consumption) && i < |prey|
    requires k == (consumption < F && wishes[i])
    ensures k ==> HuntFollowed(F, wishes, weights, prey, i + 1, kills + [k], killed + [prey[i]],
                               consumption + weights[i])
    ensures !k ==> HuntFollowed(F, wishes, weights, prey, i + 1, kills + [k], killed, consumption)
  {
    SelectPrefixStep(prey, kills, i, k);
  }

  /** The weight eaten is the total weight of the prey killed. */
  lemma {:induction false} ConsumedIsWeightOfKills(F: real, wishes: seq<bool>, weights: seq<real>, n: nat)
    requires |wishes| == |weights| && n <= |weights|
    ensures var h := HuntAfter(F, wishes, weights, n);
            h.consumed == SumReal(Select(weights[..n], h.kills))
  {
    if n > 0 {
      ConsumedIsWeightOfKills(F, wishes, weights, n - 1);
      var prev := HuntAfter(F, wishes, weights, n - 1);
      var k := prev.consumed < F && wishes[n - 1];
      var h := HuntAfter(F, wishes, weights, n);
      assert h.kills == prev.kills + [k];
      SelectPrefixStep(weights, prev.kills, n - 1, k);
      if k {
        SumRealSnoc(Select(weights[..n - 1], prev.kills), weights[n - 1]);
      }
    }
  }

  /** A predator never puts on more than beta * F in one hunt, and never loses weight hunting. */
  lemma {:induction false} GainBounded(consumed: real, p: SpeciesParams)
    requires p.beta >= 0.0 && consumed >= 0.0 && p.F >= 0.0
    ensures 0.0 <= Gain(consumed, p) <= p.F * p.beta
  {
    var c := Cap(consumed, p.F);
    assert 0.0 <= c <= p.F;
    assert c * p.beta <= p.F * p.beta;
    assert 0.0 * p.beta <= c * p.beta;
  }

  /** The per-species instance counters (the class attribute animal_count of each subclass). */
  class Census {
    var herbivores: int
    var carnivores: int

    constructor ()
      ensures herbivores == 0 && carnivores == 0
    {
      herbivores, carnivores := 0, 0;
    }

    function Count(s: Species): int
      reads this`herbivores, this`carnivores
    {
      match s
      case Herbivore => herbivores
      case Carnivore => carnivores
    }

    method Increment(s: Species)
      modifies this`herbivores, this`carnivores
      ensures Count(s) == old(Count(s)) + 1
      ensures forall t :: t != s ==> Count(t) == old(Count(t))
    {
      if s == Herbivore { herbivores := herbivores + 1; } else { carnivores := carnivores + 1; }
    }

    method Decrement(s: Species)
      modifies this`herbivores, this`carnivores
      ensures Count(s) == old(Count(s)) - 1
      ensures forall t :: t != s ==> Count(t) == old(Count(t))
    {
      if s == Herbivore { herbivores := herbivores - 1; } else { carnivores := carnivores - 1; }
    }
  }

  class Animal {
    const species: Species
    const p: SpeciesParams
    var age: int
    var weight: real
    /** Whether the animal has been evaluated for migration; starts false. */
    var hasMoved: bool

    /**
     * A new animal; when no weight is given it takes the birth weight drawn for it.
     * Construction increments its species' instance counter.
     */
    constructor (species: Species, p: SpeciesParams, weight: Option<real>, drawnBirthWeight: real,
                 age: int, census: Census)
      modifies census`herbivores, census`carnivores
      ensures this.species == species && this.p == p && this.age == age && !hasMoved
      ensures this.weight == if weight.Some? then weight.value else drawnBirthWeight
      ensures census.Count(species) == old(census.Count(species)) + 1
      ensures forall t :: t != species ==> census.Count(t) == old(census.Count(t))
    {
      this.species := species;
      this.p := p;
      this.age := age;
      this.weight := if weight.Some? then weight.value else drawnBirthWeight;
      this.hasMoved := false;
      new;
      census.Increment(species);
    }

    function Fitness(fit: FitnessFn): (r: real)
      reads this`age, this`weight
      ensures UnitRange(fit) ==> 0.0 <= r <= 1.0
    {
      FitnessValue(fit, p, age, weight)
    }

    method Aging()
      modifies this`age
      ensures age == old(age) + 1
    {
      age := age + 1;
    }

    method LoseWeight()
      modifies this`weight
      ensures weight == AfterWeightLoss(old(weight), p.eta)
    {
      weight := weight - weight * p.eta;
    }

    /** give_birth(n_same) with the draws u (Bernoulli) and birthWeight (normal). */
    method GiveBirth(nSame: int, u: real, birthWeight: real, fit: FitnessFn)
      returns (born: Option<real>)
      modifies this`weight
      ensures born == BirthOutcome(p, old(Fitness(fit)), old(weight), nSame, u, birthWeight)
      ensures weight == if born.Some? then old(weight) - BirthLoss(p, born.value) else old(weight)
    {
      var birthProb := BirthProbability(p, Fitness(fit), nSame);
      if weight < BirthThreshold(p) {
        return None;
      }
      var giveBirth := BirthDrawn(birthProb, u);
      if giveBirth && birthWeight < weight {
        weight := weight - BirthLoss(p, birthWeight);
        born := Some(birthWeight);
      } else {
        born := None;
      }
    }

    /** migrate(): whether the animal wants to move, drawn with probability mu * fitness. */
    function Migrates(u: real, fit: FitnessFn): (r: bool)
      reads this`age, this`weight
      ensures p.mu <= 0.0 && 0.0 <= u && UnitRange(fit) ==> !r
      ensures u < 1.0 && p.mu * Fitness(fit) >= 1.0 ==> r
    {
      MigrationDrawn(p, Fitness(fit), u)
    }

    /** death(): whether the animal dies; a death decrements its species' counter. */
    method Death(u: real, fit: FitnessFn, census: Census) returns (dies: bool)
      modifies census`herbivores, census`carnivores
      ensures dies == DeathDrawn(p, Fitness(fit), weight, u)
      ensures census.Count(species) == old(census.Count(species)) - (if dies then 1 else 0)
      ensures forall t :: t != species ==> census.Count(t) == old(census.Count(t))
    {
      dies := DeathDrawn(p, Fitness(fit), weight, u);
      if dies {
        census.Decrement(species);
      }
    }

    /**
     * eat_fodder(cell) for a herbivore: the cell's fodder is passed in and its new value
     * returned, for the caller to store back into the cell.
     */
    method EatFodder(fodder: real) returns (left: real)
      requires species == Herbivore
      modifies this`weight
      ensures (weight, left) == Graze(old(weight), fodder, Intake(p))
    {
      var consumption := Intake(p);
      if consumption <= fodder {
        weight := weight + consumption;
        left := fodder - consumption;
      } else if fodder > 0.0 {
        weight := weight + fodder;
        left := 0.0;
      } else {
        left := fodder;
      }
    }

    /**
     * kill_prey(sorted_herbivores) for a carnivore: draws[i] is the Bernoulli sample used
     * if prey i needs a draw. Returns the prey killed, in order, and adds
     * beta * min(consumed, F) to the predator's weight.
     */
    method KillPrey(prey: seq<Animal>, draws: seq<real>, fit: FitnessFn) returns (killed: seq<Animal>)
      requires species == Carnivore && |draws| == |prey|
      modifies this`weight
      ensures var wishes := KillWishes(old(Fitness(fit)), p.deltaPhiMax, old(FitnessOf(prey, fit)), draws);
              var h := HuntAfter(p.F, wishes, old(WeightsOf(prey)), |prey|);
              killed == Select(prey, h.kills) && weight == old(weight) + Gain(h.consumed, p)
      ensures multiset(killed) <= multiset(prey)
    {
      var own := Fitness(fit);
      var consumption;
      killed, consumption := ChoosePrey(own, p.F, p.deltaPhiMax, prey, draws, fit);
      weight := weight + Gain(consumption, p);
    }
  }

  /**
   * The loop of kill_prey: walks the prey in order while less than F has been eaten,
   * deciding each kill from the fitness gap and its draw.
   */
  method ChoosePrey(own: real, F: real, deltaPhiMax: real, prey: seq<Animal>, draws: seq<real>,
                    fit: FitnessFn) returns (killed: seq<Animal>, consumption: real)
    requires |draws| == |prey|
    ensures var wishes := KillWishes(own, deltaPhiMax, FitnessOf(prey, fit), draws);
            var h := HuntAfter(F, wishes, WeightsOf(prey), |prey|);
            killed == Select(prey, h.kills) && consumption == h.consumed
    ensures multiset(killed) <= multiset(prey)
  {
    ghost var wishes, weights := KillWishes(own, deltaPhiMax, FitnessOf(prey, fit), draws), WeightsOf(prey);
    ghost var kills: seq<bool> := [];
    consumption := 0.0;
    killed := [];
    var i := 0;
    while i < |prey|
      invariant HuntFollowed(F, wishes, weights, prey, i, kills, killed, consumption)
    {
      var herb := prey[i];
      var k := false;
      if consumption < F {
        var fitnessDiff := own - herb.Fitness(fit);
        k := KillDecision(fitnessDiff, deltaPhiMax, draws[i]);
        assert FitnessOf(prey, fit)[i] == herb.Fitness(fit);
      }
      assert weights[i] == herb.weight;
      HuntFollowedStep(F, wishes, weights, prey, i, kills, killed, consumption, k);
      if k {
        consumption := consumption + herb.weight;
        killed := killed + [herb];
      }
      kills := kills + [k];
      i := i + 1;
    }
    assert prey[..i] == prey;
    SelectSubMultiset(prey, kills);
  }

  /** The fitness of each animal of s, in order. */
  function FitnessOf(s: seq<Animal>, fit: FitnessFn): (r: seq<real>)
    reads s
    ensures |r| == |s|
    ensures UnitRange(fit) ==> forall i :: 0 <= i < |r| ==> 0.0 <= r[i] <= 1.0
  {
    seq(|s|, i requires 0 <= i < |s| reads s => s[i].Fitness(fit))
  }

  /** The weight of each animal of s, in order. */
  function WeightsOf(s: seq<Animal>): (r: seq<real>)
    reads s
    ensures |r| == |s|
  {
    seq(|s|, i requires 0 <= i < |s| reads s => s[i].weight)
  }
}
