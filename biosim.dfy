/**
 * The simulation: a population placed on the island, and the year cycle that runs the six
 * seasons (feeding, procreation, migration, aging, weight loss, death) cell by cell.
 */
module BioSims {
  import opened Wrappers
  import opened Seqs
  import opened Animals
  import opened Cells
  import opened IslandMap
  import opened Migration

  // ---------------------------------------------------------------------------------------
  // Grazing
  // ---------------------------------------------------------------------------------------

  /**
   * The herd's weights and the cell's fodder after the first n herbivores, in order, had
   * their turn: a herbivore eats only while the fodder is positive.
   */
  function GrazeAfter(weights: seq<real>, amounts: seq<real>, fodder: real, n: nat): (r: (seq<real>, real))
    requires |weights| == |amounts| && n <= |weights|
    ensures |r.0| == n
  {
    if n == 0 then ([], fodder)
    else
      var prev := GrazeAfter(weights, amounts, fodder, n - 1);
      if prev.1 > 0.0 then
        var g := Graze(weights[n - 1], prev.1, amounts[n - 1]);
        (prev.0 + [g.0], g.1)
      else (prev.0 + [weights[n - 1]], prev.1)
  }

  /** What each herbivore asks for: beta * F. */
  function Intakes(s: seq<Animal>): (r: seq<real>)
    ensures |r| == |s| && forall i :: 0 <= i < |s| ==> r[i] == Intake(s[i].p)
  {
    seq(|s|, i requires 0 <= i < |s| => Intake(s[i].p))
  }

  /** Grazing moves fodder into weight: the herd's weight plus the fodder stays the same. */
  lemma {:induction false} GrazingConserves(weights: seq<real>, amounts: seq<real>, fodder: real, n: nat)
    requires |weights| == |amounts| && n <= |weights|
    ensures var r := GrazeAfter(weights, amounts, fodder, n);
            SumReal(r.0) + r.1 == SumReal(weights[..n]) + fodder
  {
    if n > 0 {
      var prev := GrazeAfter(weights, amounts, fodder, n - 1);
      GrazingConserves(weights, amounts, fodder, n - 1);
      assert weights[..n] == weights[..n - 1] + [weights[n - 1]];
      SumRealSnoc(weights[..n - 1], weights[n - 1]);
      if prev.1 > 0.0 {
        var g := Graze(weights[n - 1], prev.1, amounts[n - 1]);
        SumRealSnoc(prev.0, g.0);
      } else {
        SumRealSnoc(prev.0, weights[n - 1]);
      }
    }
  }

  /**
   * With a non-negative supply and non-negative appetites, the fodder stays between zero
   * and its start, and each herbivore gains at least nothing and at most its appetite.
   */
  lemma {:induction false} GrazingBounds(weights: seq<real>, amounts: seq<real>, fodder: real, n: nat)
    requires |weights| == |amounts| && n <= |weights|
    requires fodder >= 0.0 && NonNegative(amounts)
    ensures var r := GrazeAfter(weights, amounts, fodder, n);
            && 0.0 <= r.1 <= fodder
            && forall i :: 0 <= i < n ==> weights[i] <= r.0[i] <= weights[i] + amounts[i]
  {
    if n > 0 {
      var prev := GrazeAfter(weights, amounts, fodder, n - 1);
      GrazingBounds(weights, amounts, fodder, n - 1);
      assert amounts[n - 1] >= 0.0;
    }
  }

  /** Once the fodder is used up, no later herbivore gains anything. */
  lemma {:induction false} GrazingStops(weights: seq<real>, amounts: seq<real>, fodder: real, j: nat, n: nat)
    requires |weights| == |amounts| && j <= n <= |weights|
    requires GrazeAfter(weights, amounts, fodder, j).1 <= 0.0
    ensures var r := GrazeAfter(weights, amounts, fodder, n);
            && r.1 == GrazeAfter(weights, amounts, fodder, j).1
            && forall i :: j <= i < n ==> r.0[i] == weights[i]
  {
    if j < n {
      GrazingStops(weights, amounts, fodder, j, n - 1);
    }
  }

  /**
   * The loop state of grazing after i herbivores: the first i weights are GrazeAfter's, the
   * rest untouched, and the fodder is what GrazeAfter leaves.
   */
  ghost predicate GrazeFollowed(w0: seq<real>, amounts: seq<real>, f0: real, i: nat, ws: seq<real>, fodder: real)
  {
    |w0| == |amounts| == |ws| && i <= |w0| &&
    GrazeAfter(w0, amounts, f0, i) == (ws[..i], fodder) && ws[i..] == w0[i..]
  }

  lemma GrazeFollowedStep(w0: seq<real>, amounts: seq<real>, f0: real, i: nat, ws: seq<real>, fodder: real)
    requires GrazeFollowed(w0, amounts, f0, i, ws, fodder) && i < |w0|
    ensures fodder > 0.0 ==>
      var g := Graze(ws[i], fodder, amounts[i]);
      GrazeFollowed(w0, amounts, f0, i + 1, ws[i := g.0], g.1)
    ensures fodder <= 0.0 ==> GrazeFollowed(w0, amounts, f0, i + 1, ws, fodder)
  {
    assert ws[i] == w0[i] by {
      assert ws[i..][0] == w0[i..][0];
    }
    if fodder > 0.0 {
      var g := Graze(ws[i], fodder, amounts[i]);
      var ws' := ws[i := g.0];
      assert ws'[..i + 1] == ws[..i] + [g.0];
      assert ws'[i + 1..] == ws[i..][1..];
    } else {
      assert ws[..i + 1] == ws[..i] + [ws[i]];
      assert ws[i + 1..] == ws[i..][1..];
    }
  }

  /** The grazing loop of feeding: the herbivores in list order, each eating while fodder is left. */
  method GrazeAll(cell: Cell)
    requires cell.Valid()
    modifies cell`fodder, cell.herbivores`weight
    ensures var g := GrazeAfter(old(WeightsOf(cell.herbivores)), Intakes(cell.herbivores), old(cell.fodder),
                                |cell.herbivores|);
            WeightsOf(cell.herbivores) == g.0 && cell.fodder == g.1
  {
    var herbs := cell.herbivores;
    assert NoDup(herbs) && forall j :: 0 <= j < |herbs| ==> herbs[j].species == Herbivore;
    ghost var w0 := WeightsOf(herbs);
    ghost var amounts := Intakes(herbs);
    ghost var ws := w0;
    var i := 0;
    assert ws[..0] == [] && ws[0..] == w0[0..];
    while i < |herbs|
      invariant GrazeFollowed(w0, amounts, old(cell.fodder), i, ws, cell.fodder)
      invariant forall j :: 0 <= j < |herbs| ==> herbs[j].weight == ws[j]
    {
      var herb := herbs[i];
      GrazeFollowedStep(w0, amounts, old(cell.fodder), i, ws, cell.fodder);
      if cell.fodder > 0.0 {
        assert amounts[i] == Intake(herb.p);
        cell.fodder := herb.EatFodder(cell.fodder);
        ws := ws[i := herb.weight];
      }
      i := i + 1;
    }
    assert ws[..i] == ws;
  }

  // ---------------------------------------------------------------------------------------
  // Hunting
  // ---------------------------------------------------------------------------------------

  /** The draws carnivore j uses for the first n herbivores it considers. */
  function DrawRow(draws: (nat, nat) -> real, j: nat, n: nat): (r: seq<real>)
    ensures |r| == n && forall i :: 0 <= i < n ==> r[i] == draws(j, i)
  {
    seq(n, (i: int) requires 0 <= i => draws(j, i))
  }

  /** The value m gives each animal of s, in list order. */
  ghost function Values(s: seq<Animal>, m: map<Animal, real>): (r: seq<real>)
    requires forall i :: 0 <= i < |s| ==> s[i] in m
  {
    seq(|s|, i requires 0 <= i < |s| => m[s[i]])
  }

  /** Tables that hold the fitness and weight of every animal of s give those of any animals drawn from s. */
  lemma TablesAgree(prey: seq<Animal>, s: seq<Animal>, fit: FitnessFn, fits: map<Animal, real>,
                    weights: map<Animal, real>)
    requires (forall i :: 0 <= i < |prey| ==> prey[i] in s) && Tables(s, fit, fits, weights)
    ensures forall i :: 0 <= i < |prey| ==> prey[i] in fits && prey[i] in weights
    ensures FitnessOf(prey, fit) == Values(prey, fits) && WeightsOf(prey) == Values(prey, weights)
  {
    forall i | 0 <= i < |prey|
      ensures prey[i] in fits && fits[prey[i]] == prey[i].Fitness(fit) && prey[i] in weights && weights[prey[i]] == prey[i].weight
    {
      var k :| 0 <= k < |s| && s[k] == prey[i];
    }
  }

  /**
   * Carnivore turn j of the hunt: a predator of fitness own and parameters p hunts the
   * herbivores rest, whose fitnesses and weights the tables fits and weights give, sorted
   * from least to most fit, with the draws draws(j, _); it kills exactly kills and eats
   * consumed.
   */
  ghost predicate HuntTurn(own: real, p: SpeciesParams, rest: seq<Animal>, fits: map<Animal, real>,
                           weights: map<Animal, real>, draws: (nat, nat) -> real, j: nat,
                           kills: seq<Animal>, consumed: real)
    requires forall i :: 0 <= i < |rest| ==> rest[i] in fits && rest[i] in weights
  {
    var prey := SortedBy(rest, fits);
    var wishes := KillWishes(own, p.deltaPhiMax, Values(prey, fits), DrawRow(draws, j, |prey|));
    var h := HuntAfter(p.F, wishes, Values(prey, weights), |prey|);
    kills == Select(prey, h.kills) && consumed == h.consumed
  }

  /**
   * The first n turns of the hunt in a cell whose herbivores were h0, with fitnesses and
   * weights fits and weights, and whose carnivores are carns, of fitnesses owns: rests[k]
   * are the herbivores carnivore k finds, hunts[k] what it kills and eaten[k] what it eats,
   * and its kills leave the cell before carnivore k + 1 hunts.
   */
  ghost predicate HuntRecordAt(h0: seq<Animal>, carns: seq<Animal>, owns: seq<real>, fits: map<Animal, real>,
                               weights: map<Animal, real>, draws: (nat, nat) -> real, rests: seq<seq<Animal>>,
                               hunts: seq<seq<Animal>>, eaten: seq<real>, n: nat)
  {
    && |owns| == |carns| && n <= |carns| && |rests| == n + 1 && |hunts| == n && |eaten| == n && rests[0] == h0
    && (forall k, i :: 0 <= k <= n && 0 <= i < |rests[k]| ==> rests[k][i] in fits && rests[k][i] in weights)
    && (forall k :: 0 <= k < n ==> rests[k + 1] == RemoveEach(rests[k], carns, hunts[k]).herbivores)
    && (forall k :: 0 <= k < n ==> HuntTurn(owns[k], carns[k].p, rests[k], fits, weights, draws, k, hunts[k], eaten[k]))
  }

  /**
   * HuntRecordAt, sealed: beyond the lengths, the record is opened only where HuntRecordAt is
   * mentioned for that n, which keeps the methods that merely pass the record on cheap to check.
   */
  ghost predicate HuntRecord(h0: seq<Animal>, carns: seq<Animal>, owns: seq<real>, fits: map<Animal, real>,
                             weights: map<Animal, real>, draws: (nat, nat) -> real, rests: seq<seq<Animal>>,
                             hunts: seq<seq<Animal>>, eaten: seq<real>, n: nat)
  {
    && |owns| == |carns| && n <= |carns| && |rests| == n + 1 && |hunts| == n && |eaten| == n && rests[0] == h0
    && forall m: nat :: m == n ==> HuntRecordAt(h0, carns, owns, fits, weights, draws, rests, hunts, eaten, m)
  }

  /** One more turn recorded: the record of n turns grows to n + 1. */
  lemma HuntRecordStep(h0: seq<Animal>, carns: seq<Animal>, owns: seq<real>, fits: map<Animal, real>,
                       weights: map<Animal, real>, draws: (nat, nat) -> real, rests: seq<seq<Animal>>,
                       hunts: seq<seq<Animal>>, eaten: seq<real>, n: nat,
                       rest: seq<Animal>, kills: seq<Animal>, consumed: real)
    requires HuntRecord(h0, carns, owns, fits, weights, draws, rests, hunts, eaten, n) && n < |carns|
    requires forall i :: 0 <= i < |rests[n]| ==> rests[n][i] in fits && rests[n][i] in weights
    requires HuntTurn(owns[n], carns[n].p, rests[n], fits, weights, draws, n, kills, consumed)
    requires rest == RemoveEach(rests[n], carns, kills).herbivores
    requires forall i :: 0 <= i < |rest| ==> rest[i] in fits && rest[i] in weights
    ensures HuntRecord(h0, carns, owns, fits, weights, draws, rests + [rest], hunts + [kills], eaten + [consumed], n + 1)
  {
    assert HuntRecordAt(h0, carns, owns, fits, weights, draws, rests, hunts, eaten, n);
    var rests', hunts', eaten' := rests + [rest], hunts + [kills], eaten + [consumed];
    forall k, i | 0 <= k <= n + 1 && 0 <= i < |rests'[k]| ensures rests'[k][i] in fits && rests'[k][i] in weights {
      if k <= n { assert rests'[k] == rests[k]; }
    }
    forall k | 0 <= k < n + 1
      ensures rests'[k + 1] == RemoveEach(rests'[k], carns, hunts'[k]).herbivores
      ensures HuntTurn(owns[k], carns[k].p, rests'[k], fits, weights, draws, k, hunts'[k], eaten'[k])
    {
      assert rests'[k] == rests[k];
      if k < n {
        assert rests'[k + 1] == rests[k + 1] && hunts'[k] == hunts[k] && eaten'[k] == eaten[k];
      } else {
        assert rests'[k + 1] == rest && hunts'[k] == kills && eaten'[k] == consumed;
      }
    }
    assert HuntRecordAt(h0, carns, owns, fits, weights, draws, rests', hunts', eaten', n + 1);
  }

  /**
   * The hunt after n turns: the record of those turns, the herbivores herbs still in the
   * cell, which are those the next carnivore finds, and killed, the turns' kills in order,
   * which together with herbs are the herbivores the hunt began with. Sealed like HuntRecord.
   */
  ghost predicate HuntProgress(h0: seq<Animal>, carns: seq<Animal>, owns: seq<real>, fits: map<Animal, real>,
                               weights: map<Animal, real>, draws: (nat, nat) -> real, rests: seq<seq<Animal>>,
                               hunts: seq<seq<Animal>>, eaten: seq<real>, n: nat, herbs: seq<Animal>,
                               killed: seq<Animal>)
  {
    && |owns| == |carns| && n <= |carns| && |rests| == n + 1 && |hunts| == n && |eaten| == n
    && forall m: nat :: m == n ==>
         && HuntRecord(h0, carns, owns, fits, weights, draws, rests, hunts, eaten, m)
         && herbs == rests[m] && killed == Concat(hunts)
         && multiset(herbs) + multiset(killed) == multiset(h0)
  }

  /** Before the first turn nothing is killed. */
  lemma HuntProgressStart(h0: seq<Animal>, carns: seq<Animal>, owns: seq<real>, fits: map<Animal, real>,
                          weights: map<Animal, real>, draws: (nat, nat) -> real)
    requires |owns| == |carns|
    requires forall i :: 0 <= i < |h0| ==> h0[i] in fits && h0[i] in weights
    ensures HuntProgress(h0, carns, owns, fits, weights, draws, [h0], [], [], 0, h0, [])
  {
    assert HuntRecordAt(h0, carns, owns, fits, weights, draws, [h0], [], [], 0);
  }

  /** One more turn: carnivore n kills kills out of herbs and leaves rest. */
  lemma HuntProgressStep(h0: seq<Animal>, carns: seq<Animal>, owns: seq<real>, fits: map<Animal, real>,
                         weights: map<Animal, real>, draws: (nat, nat) -> real, rests: seq<seq<Animal>>,
                         hunts: seq<seq<Animal>>, eaten: seq<real>, n: nat, herbs: seq<Animal>,
                         killed: seq<Animal>, rest: seq<Animal>, kills: seq<Animal>, consumed: real)
    requires HuntProgress(h0, carns, owns, fits, weights, draws, rests, hunts, eaten, n, herbs, killed)
    requires n < |carns|
    requires forall i :: 0 <= i < |herbs| ==> herbs[i] in fits && herbs[i] in weights
    requires HuntTurn(owns[n], carns[n].p, herbs, fits, weights, draws, n, kills, consumed)
    requires rest == RemoveEach(herbs, carns, kills).herbivores
    requires multiset(rest) + multiset(kills) == multiset(herbs)
    requires forall i :: 0 <= i < |rest| ==> rest[i] in fits && rest[i] in weights
    ensures HuntProgress(h0, carns, owns, fits, weights, draws, rests + [rest], hunts + [kills],
                         eaten + [consumed], n + 1, rest, killed + kills)
  {
    assert HuntRecord(h0, carns, owns, fits, weights, draws, rests, hunts, eaten, n);
    HuntRecordStep(h0, carns, owns, fits, weights, draws, rests, hunts, eaten, n, rest, kills, consumed);
    assert Concat(hunts + [kills]) == Concat(hunts) + kills;
  }

  /** What the hunt after n turns amounts to. */
  lemma HuntProgressOpen(h0: seq<Animal>, carns: seq<Animal>, owns: seq<real>, fits: map<Animal, real>,
                         weights: map<Animal, real>, draws: (nat, nat) -> real, rests: seq<seq<Animal>>,
                         hunts: seq<seq<Animal>>, eaten: seq<real>, n: nat, herbs: seq<Animal>,
                         killed: seq<Animal>)
    requires HuntProgress(h0, carns, owns, fits, weights, draws, rests, hunts, eaten, n, herbs, killed)
    ensures HuntRecord(h0, carns, owns, fits, weights, draws, rests, hunts, eaten, n)
    ensures herbs == rests[n] && killed == Concat(hunts)
    ensures multiset(herbs) + multiset(killed) == multiset(h0)
  {
  }

  /** Each animal of s with its fitness. */
  ghost function FitnessMap(s: seq<Animal>, fit: FitnessFn): (m: map<Animal, real>)
    reads s
    ensures forall i :: 0 <= i < |s| ==> s[i] in m && m[s[i]] == s[i].Fitness(fit)
  {
    map a | a in s :: a.Fitness(fit)
  }

  /** Each animal of s with its weight. */
  ghost function WeightMap(s: seq<Animal>): (m: map<Animal, real>)
    reads s
    ensures forall i :: 0 <= i < |s| ==> s[i] in m && m[s[i]] == s[i].weight
  {
    map a | a in s :: a.weight
  }

  /** fits and weights hold the current fitness and weight of every animal of s. */
  ghost predicate Tables(s: seq<Animal>, fit: FitnessFn, fits: map<Animal, real>, weights: map<Animal, real>)
    reads s
  {
    forall i :: 0 <= i < |s| ==>
      s[i] in fits && fits[s[i]] == s[i].Fitness(fit) && s[i] in weights && weights[s[i]] == s[i].weight
  }

  /** Tables that cover s cover any animals taken from s. */
  lemma TablesWithin(sub: seq<Animal>, s: seq<Animal>, fit: FitnessFn, fits: map<Animal, real>,
                     weights: map<Animal, real>)
    requires multiset(sub) <= multiset(s) && Tables(s, fit, fits, weights)
    ensures Tables(sub, fit, fits, weights)
  {
    forall i | 0 <= i < |sub|
      ensures sub[i] in fits && fits[sub[i]] == sub[i].Fitness(fit) && sub[i] in weights && weights[sub[i]] == sub[i].weight
    {
      assert sub[i] in multiset(s);
      var k :| 0 <= k < |s| && s[k] == sub[i];
    }
  }

  /** Carnivores before turn j have put on what they ate; the others weigh what they did at first. */
  ghost predicate Gained(carns: seq<Animal>, w0: seq<real>, eaten: seq<real>, j: nat)
    reads carns
    requires j <= |carns| == |w0| && |eaten| == j
  {
    && (forall k :: 0 <= k < j ==> carns[k].weight == w0[k] + Gain(eaten[k], carns[k].p))
    && (forall k :: j <= k < |carns| ==> carns[k].weight == w0[k])
  }

  /**
   * The hunting loop of feeding: each carnivore in list order hunts the herbivores sorted
   * from least to most fit, and its kills leave the cell before the next carnivore hunts.
   * draws(j, i) is the draw carnivore j uses for the i-th herbivore it considers. killed
   * collects the kills, whose number the source reports to the island. Each carnivore hunts
   * with the fitness it had when the hunt began, since only its own turn changes its weight,
   * and the herbivores' fitnesses and weights, recorded in fits and weights, stay as they were.
   */
  method HuntAll(cell: Cell, fit: FitnessFn, draws: (nat, nat) -> real)
    returns (killed: seq<Animal>, ghost rests: seq<seq<Animal>>, ghost hunts: seq<seq<Animal>>,
             ghost eaten: seq<real>, ghost fits: map<Animal, real>, ghost weights: map<Animal, real>)
    requires cell.Valid()
    modifies cell`herbivores, cell`carnivores, cell.carnivores`weight
    ensures cell.Valid() && cell.carnivores == old(cell.carnivores)
    ensures HuntRecord(old(cell.herbivores), cell.carnivores, old(FitnessOf(cell.carnivores, fit)), fits, weights,
                       draws, rests, hunts, eaten, |cell.carnivores|)
    ensures Tables(old(cell.herbivores), fit, fits, weights)
    ensures cell.herbivores == rests[|cell.carnivores|] && killed == Concat(hunts)
    ensures Gained(cell.carnivores, old(WeightsOf(cell.carnivores)), eaten, |cell.carnivores|)
    ensures multiset(cell.herbivores) + multiset(killed) == old(multiset(cell.herbivores))
    ensures NoDup(killed)
    ensures WeightsOf(old(cell.herbivores)) == old(WeightsOf(cell.herbivores))
  {
    var carns := cell.carnivores;
    ghost var h0, w0 := cell.herbivores, WeightsOf(carns);
    ghost var owns := FitnessOf(carns, fit);
    fits, weights := FitnessMap(h0, fit), WeightMap(h0);
    killed, rests, hunts, eaten := [], [h0], [], [];
    HuntProgressStart(h0, carns, owns, fits, weights, draws);
    var j := 0;
    while j < |carns|
      invariant 0 <= j <= |carns|
      invariant cell.carnivores == carns && cell.Valid()
      invariant HuntProgress(h0, carns, owns, fits, weights, draws, rests, hunts, eaten, j, cell.herbivores, killed)
      invariant Tables(h0, fit, fits, weights) && Tables(cell.herbivores, fit, fits, weights)
      invariant Gained(carns, w0, eaten, j)
    {
      assert carns[j].Fitness(fit) == owns[j];
      killed, rests, hunts, eaten := HuntStep(cell, carns, j, carns[j], fit, draws, killed, h0, owns, w0, fits, weights,
                                              rests, hunts, eaten);
      j := j + 1;
    }
    HuntProgressOpen(h0, carns, owns, fits, weights, draws, rests, hunts, eaten, j, cell.herbivores, killed);
    SubNoDup(killed, h0);
  }

  /**
   * Turn j of the hunting loop: carnivore j hunts, its turn joins the record, and the tables
   * of the herbivores and the weights of the other carnivores stay as they were.
   */
  method HuntStep(cell: Cell, carns: seq<Animal>, j: nat, carn: Animal, fit: FitnessFn, draws: (nat, nat) -> real,
                  killed: seq<Animal>, ghost h0: seq<Animal>, ghost owns: seq<real>, ghost w0: seq<real>,
                  ghost fits: map<Animal, real>, ghost weights: map<Animal, real>, ghost rests: seq<seq<Animal>>,
                  ghost hunts: seq<seq<Animal>>, ghost eaten: seq<real>)
    returns (killed': seq<Animal>, ghost rests': seq<seq<Animal>>, ghost hunts': seq<seq<Animal>>,
             ghost eaten': seq<real>)
    requires j < |carns| == |w0| && carn == carns[j] && cell.carnivores == carns && cell.Valid()
    requires forall i :: 0 <= i < |h0| ==> h0[i].species == Herbivore
    requires HuntProgress(h0, carns, owns, fits, weights, draws, rests, hunts, eaten, j, cell.herbivores, killed)
    requires Tables(h0, fit, fits, weights) && Tables(cell.herbivores, fit, fits, weights) && Gained(carns, w0, eaten, j)
    requires carn.Fitness(fit) == owns[j]
    modifies cell`herbivores, cell`carnivores, carn`weight
    ensures cell.carnivores == carns && cell.Valid()
    ensures HuntProgress(h0, carns, owns, fits, weights, draws, rests', hunts', eaten', j + 1, cell.herbivores, killed')
    ensures Tables(h0, fit, fits, weights) && Tables(cell.herbivores, fit, fits, weights)
    ensures Gained(carns, w0, eaten', j + 1)
  {
    ghost var herbs := cell.herbivores;
    var herbsKilled, e := HuntOnce(cell, carn, j, fit, draws, fits, weights);
    assert forall i :: 0 <= i < |h0| ==> h0[i] != carn;
    HuntProgressStep(h0, carns, owns, fits, weights, draws, rests, hunts, eaten, j, herbs, killed, cell.herbivores,
                     herbsKilled, e);
    killed', rests', hunts', eaten' := killed + herbsKilled, rests + [cell.herbivores], hunts + [herbsKilled], eaten + [e];
  }

  /**
   * One carnivore's turn, the j-th: it hunts the cell's herbivores sorted from least to most
   * fit (kill_prey(cell.sorted_herbivores)), and its kills are removed from the cell. fits
   * and weights hold the herbivores' fitnesses and weights.
   */
  method HuntOnce(cell: Cell, carn: Animal, j: nat, fit: FitnessFn, draws: (nat, nat) -> real,
                  ghost fits: map<Animal, real>, ghost weights: map<Animal, real>)
    returns (killed: seq<Animal>, ghost eaten: real)
    requires cell.Valid() && carn in cell.carnivores
    requires Tables(cell.herbivores, fit, fits, weights)
    modifies cell`herbivores, cell`carnivores, carn`weight
    ensures HuntTurn(old(carn.Fitness(fit)), carn.p, old(cell.herbivores), fits, weights, draws, j, killed, eaten)
    ensures carn.weight == old(carn.weight) + Gain(eaten, carn.p)
    ensures cell.herbivores == RemoveEach(old(cell.herbivores), old(cell.carnivores), killed).herbivores
    ensures cell.Valid() && cell.carnivores == old(cell.carnivores)
    ensures multiset(cell.herbivores) + multiset(killed) == old(multiset(cell.herbivores))
    ensures Tables(cell.herbivores, fit, fits, weights)
  {
    ghost var herbs := cell.herbivores;
    killed, eaten := Strike(cell, carn, j, fit, draws, fits, weights);
    assert Tables(herbs, fit, fits, weights) by {
      assert forall i :: 0 <= i < |herbs| ==> herbs[i] != carn;
    }
    Hunted(cell.herbivores, cell.carnivores, Dedup(cell.herbivores), killed);
    var ok := cell.RemoveAnimals(killed);
    TablesWithin(cell.herbivores, herbs, fit, fits, weights);
  }

  /**
   * The kill_prey call of carnivore turn j: the predator walks the cell's herbivores sorted
   * from least to most fit, picks its kills among them and puts on what it eats.
   */
  method Strike(cell: Cell, carn: Animal, j: nat, fit: FitnessFn, draws: (nat, nat) -> real,
                ghost fits: map<Animal, real>, ghost weights: map<Animal, real>)
    returns (killed: seq<Animal>, ghost eaten: real)
    requires cell.Valid() && carn in cell.carnivores
    requires Tables(cell.herbivores, fit, fits, weights)
    modifies carn`weight
    ensures HuntTurn(old(carn.Fitness(fit)), carn.p, cell.herbivores, fits, weights, draws, j, killed, eaten)
    ensures carn.weight == old(carn.weight) + Gain(eaten, carn.p)
    ensures multiset(killed) <= multiset(Dedup(cell.herbivores))
  {
    var prey := cell.SortedHerbivores(fit);
    ByFitnessSortedBy(cell.herbivores, fit, fits);
    TablesAgree(prey, cell.herbivores, fit, fits, weights);
    var ds := DrawRow(draws, j, |prey|);
    ghost var h := HuntAfter(carn.p.F, KillWishes(carn.Fitness(fit), carn.p.deltaPhiMax, Values(prey, fits), ds),
                             Values(prey, weights), |prey|);
    killed := carn.KillPrey(prey, ds, fit);
    eaten := h.consumed;
  }

  /**
   * A carnivore's kills, some of the sorted herbivores, can all be removed: the removal
   * succeeds, takes out those herbivores and leaves the carnivores as they were.
   */
  lemma Hunted(h: seq<Animal>, c: seq<Animal>, prey: seq<Animal>, kills: seq<Animal>)
    requires SpeciesLists(h, c)
    requires multiset(prey) == multiset(Dedup(h)) && multiset(kills) <= multiset(prey)
    ensures var r := RemoveEach(h, c, kills);
      r.ok && SpeciesLists(r.herbivores, r.carnivores) && r.carnivores == c &&
      multiset(r.herbivores) + multiset(kills) == multiset(h)
  {
    DedupOfDistinct(h);
    OfOneSpecies(kills, h, Herbivore);
    RemovingResidents(h, c, kills);
    RemovingHerbivoresOnly(h, c, kills);
  }

  // ---------------------------------------------------------------------------------------
  // Feeding
  // ---------------------------------------------------------------------------------------

  /**
   * Grazing then hunting on a cell whose herbivores are already in feeding order: the herd
   * grazes as GrazeAfter says, then the carnivores hunt the grazed herd turn by turn as
   * HuntRecord says, each with the fitness it had before feeding, and each gains what its
   * turn lets it eat; the carnivore list stays as it was.
   */
  method GrazeThenHunt(cell: Cell, fit: FitnessFn, draws: (nat, nat) -> real)
    returns (killed: seq<Animal>, ghost rests: seq<seq<Animal>>, ghost hunts: seq<seq<Animal>>,
             ghost eaten: seq<real>, ghost fits: map<Animal, real>, ghost weights: map<Animal, real>)
    requires cell.Valid()
    modifies cell`fodder, cell`herbivores, cell`carnivores, cell.herbivores`weight, cell.carnivores`weight
    ensures cell.Valid() && cell.carnivores == old(cell.carnivores)
    ensures var herd := old(cell.herbivores);
            var w0 := old(WeightsOf(cell.herbivores));
            var g := GrazeAfter(w0, Intakes(herd), old(cell.fodder), |herd|);
            cell.fodder == g.1 && WeightsOf(herd) == g.0
    ensures HuntRecord(old(cell.herbivores), cell.carnivores, old(FitnessOf(cell.carnivores, fit)), fits, weights,
                       draws, rests, hunts, eaten, |cell.carnivores|)
    ensures Tables(old(cell.herbivores), fit, fits, weights)
    ensures cell.herbivores == rests[|cell.carnivores|] && killed == Concat(hunts)
    ensures Gained(cell.carnivores, old(WeightsOf(cell.carnivores)), eaten, |cell.carnivores|)
    ensures multiset(cell.herbivores) + multiset(killed) == old(multiset(cell.herbivores))
    ensures NoDup(killed)
  {
    ghost var carns := cell.carnivores;
    assert forall i :: 0 <= i < |carns| ==> carns[i] !in cell.herbivores;
    GrazeAll(cell);
    assert FitnessOf(carns, fit) == old(FitnessOf(cell.carnivores, fit));
    killed, rests, hunts, eaten, fits, weights := HuntAll(cell, fit, draws);
  }

  /**
   * feeding(cell): the fodder is refilled to f_max, the herbivores are shuffled (below gives
   * the shuffle's draws) into herd and graze in that order, then the carnivores hunt the
   * grazed herd turn by turn as HuntRecord says. Grazing moves fodder into herbivore weight;
   * hunting takes herbivores out, gives each carnivore what it eats and leaves the
   * carnivore list as it was.
   */
  method Feeding(cell: Cell, fit: FitnessFn, below: Below, draws: (nat, nat) -> real)
    returns (killed: seq<Animal>, ghost herd: seq<Animal>, ghost rests: seq<seq<Animal>>,
             ghost hunts: seq<seq<Animal>>, ghost eaten: seq<real>, ghost fits: map<Animal, real>,
             ghost weights: map<Animal, real>)
    requires cell.Valid() && cell.table.Valid()
    modifies cell`fodder, cell`herbivores, cell`carnivores, cell.herbivores`weight, cell.carnivores`weight
    ensures cell.Valid() && cell.carnivores == old(cell.carnivores)
    ensures multiset(cell.herbivores) + multiset(killed) == old(multiset(cell.herbivores))
    ensures NoDup(killed)
    ensures forall n :: n == |old(cell.herbivores)| ==> herd == ShuffleSteps(old(cell.herbivores), below, n)
    ensures forall i :: 0 <= i < |herd| ==> herd[i] in old(cell.herbivores)
    ensures var g := GrazeAfter(old(WeightsOf(herd)), Intakes(herd), old(cell.FMax()), |herd|);
            cell.fodder == g.1 && WeightsOf(herd) == g.0
    ensures HuntRecord(herd, cell.carnivores, old(FitnessOf(cell.carnivores, fit)), fits, weights,
                       draws, rests, hunts, eaten, |cell.carnivores|)
    ensures Tables(herd, fit, fits, weights)
    ensures cell.herbivores == rests[|cell.carnivores|] && killed == Concat(hunts)
    ensures Gained(cell.carnivores, old(WeightsOf(cell.carnivores)), eaten, |cell.carnivores|)
  {
    cell.fodder := cell.FMax();
    cell.RandomizeHerbs(below);
    herd := cell.herbivores;
    assert forall i :: 0 <= i < |herd| ==> herd[i] in old(cell.herbivores);
    assert WeightsOf(herd) == old(WeightsOf(herd));
    assert FitnessOf(cell.carnivores, fit) == old(FitnessOf(cell.carnivores, fit));
    killed, rests, hunts, eaten, fits, weights := GrazeThenHunt(cell, fit, draws);
  }

  // ---------------------------------------------------------------------------------------
  // Procreation
  // ---------------------------------------------------------------------------------------

  /**
   * The give_birth outcome of each mother in list order, from her fitness and weight before
   * the season; us(i) and bws(i) are the Bernoulli and normal draws of mother i.
   */
  function BirthOutcomes(mothers: seq<Animal>, fits: seq<real>, weights: seq<real>, nSame: int,
                         us: nat -> real, bws: nat -> real): (r: seq<Option<real>>)
    requires |fits| == |weights| == |mothers|
    ensures |r| == |mothers|
    ensures forall i :: 0 <= i < |r| && r[i].Some? ==> r[i].value == bws(i) && r[i].value < weights[i]
    ensures forall i :: 0 <= i < |r| && weights[i] < BirthThreshold(mothers[i].p) ==> r[i].None?
  {
    seq(|mothers|, (i: int) requires 0 <= i < |mothers| =>
      BirthOutcome(mothers[i].p, fits[i], weights[i], nSame, us(i), bws(i)))
  }

  /** The newborns' weights, in the order of the births: at most one per mother. */
  function Born(outcomes: seq<Option<real>>): (r: seq<real>)
    ensures |r| <= |outcomes|
  {
    if |outcomes| == 0 then []
    else
      var last := outcomes[|outcomes| - 1];
      Born(outcomes[..|outcomes| - 1]) + (if last.Some? then [last.value] else [])
  }

  /** Each mother's weight after her turn: a birth costs her xi times the newborn's weight. */
  function AfterBirths(mothers: seq<Animal>, weights: seq<real>, outcomes: seq<Option<real>>): (r: seq<real>)
    requires |weights| == |outcomes| == |mothers|
    ensures |r| == |mothers|
    ensures forall i :: 0 <= i < |r| && outcomes[i].None? ==> r[i] == weights[i]
    ensures forall i :: 0 <= i < |r| && outcomes[i].Some? && mothers[i].p.xi >= 0.0 && outcomes[i].value >= 0.0 ==>
      r[i] <= weights[i]
  {
    seq(|mothers|, (i: int) requires 0 <= i < |mothers| =>
      if outcomes[i].Some? then weights[i] - BirthLoss(mothers[i].p, outcomes[i].value) else weights[i])
  }

  /** The draws f(k), f(k + 1), ...: the draws of the carnivores come after the herbivores'. */
  function Shift(f: nat -> real, k: nat): (g: nat -> real)
  {
    (n: nat) => f(k + n)
  }

  /** Without any birth there are no newborns. */
  lemma {:induction false} NoneBorn(outcomes: seq<Option<real>>)
    requires forall i :: 0 <= i < |outcomes| ==> outcomes[i].None?
    ensures Born(outcomes) == []
  {
    if |outcomes| > 0 {
      NoneBorn(outcomes[..|outcomes| - 1]);
    }
  }

  /**
   * Because the birth probability is gamma * fitness * n_same - 1, a herd in which
   * gamma * n_same is at most 1 has no newborns at all, whatever the draws.
   */
  lemma SmallHerdHasNoNewborns(mothers: seq<Animal>, fits: seq<real>, weights: seq<real>, nSame: int,
                               us: nat -> real, bws: nat -> real)
    requires |fits| == |weights| == |mothers| && 0 <= nSame
    requires forall i :: 0 <= i < |mothers| ==>
      0.0 <= fits[i] <= 1.0 && 0.0 <= mothers[i].p.gamma && mothers[i].p.gamma * (nSame as real) <= 1.0
    ensures Born(BirthOutcomes(mothers, fits, weights, nSame, us, bws)) == []
  {
    var os := BirthOutcomes(mothers, fits, weights, nSame, us, bws);
    forall i | 0 <= i < |os| ensures os[i].None? {
      SmallHerdsDoNotBreed(mothers[i].p, fits[i], weights[i], nSame, us(i), bws(i));
    }
    NoneBorn(os);
  }

  /** Every newborn is lighter than its mother was: Born keeps the outcomes' values. */
  lemma {:induction false} NewbornsLighter(mothers: seq<Animal>, fits: seq<real>, weights: seq<real>, nSame: int,
                                           us: nat -> real, bws: nat -> real, k: nat)
    requires |fits| == |weights| == |mothers|
    requires k < |Born(BirthOutcomes(mothers, fits, weights, nSame, us, bws))|
    ensures exists i :: 0 <= i < |mothers| && Born(BirthOutcomes(mothers, fits, weights, nSame, us, bws))[k] < weights[i]
  {
    var os := BirthOutcomes(mothers, fits, weights, nSame, us, bws);
    var n := |mothers| - 1;
    var prefix := Born(os[..n]);
    assert os[..n] == BirthOutcomes(mothers[..n], fits[..n], weights[..n], nSame, us, bws);
    if k < |prefix| {
      NewbornsLighter(mothers[..n], fits[..n], weights[..n], nSame, us, bws, k);
      var i :| 0 <= i < n && prefix[k] < weights[..n][i];
      assert Born(os)[k] < weights[i];
    } else {
      assert Born(os)[k] == os[n].value < weights[n];
    }
  }

  lemma BornStep(outcomes: seq<Option<real>>, i: nat)
    requires i < |outcomes|
    ensures Born(outcomes[..i + 1]) == Born(outcomes[..i]) + (if outcomes[i].Some? then [outcomes[i].value] else [])
  {
    assert outcomes[..i + 1][..i] == outcomes[..i];
  }

  /**
   * One mother's turn: give_birth with her draws, and for a birth a newborn of species sp
   * with the default parameters, age 0 and the drawn weight.
   */
  method BirthTurn(mother: Animal, sp: Species, nSame: int, u: real, bw: real, fit: FitnessFn, census: Census)
    returns (b: Option<real>, baby: Option<Animal>)
    modifies mother`weight, census
    ensures b == BirthOutcome(mother.p, old(mother.Fitness(fit)), old(mother.weight), nSame, u, bw)
    ensures mother.weight == if b.Some? then old(mother.weight) - BirthLoss(mother.p, b.value) else old(mother.weight)
    ensures baby.Some? == b.Some?
    ensures baby.Some? ==>
      fresh(baby.value) && baby.value.weight == b.value && baby.value.species == sp &&
      baby.value.p == DefaultParams(sp) && baby.value.age == 0 && !baby.value.hasMoved
    ensures census.Count(sp) == old(census.Count(sp)) + (if b.Some? then 1 else 0)
    ensures forall t :: t != sp ==> census.Count(t) == old(census.Count(t))
  {
    b := mother.GiveBirth(nSame, u, bw, fit);
    baby := None;
    if b.Some? {
      var a := new Animal(sp, DefaultParams(sp), Some(b.value), 0.0, 0, census);
      baby := Some(a);
    }
  }

  /** Newborns of species sp with the default parameters, age 0, not moved and the given weights. */
  ghost predicate Newborns(born: seq<Animal>, weights: seq<real>, sp: Species)
    reads born
  {
    |born| == |weights| &&
    forall j :: 0 <= j < |born| ==>
      born[j].weight == weights[j] && born[j].species == sp && born[j].p == DefaultParams(sp) &&
      born[j].age == 0 && !born[j].hasMoved
  }

  lemma NewbornsSnoc(born: seq<Animal>, weights: seq<real>, sp: Species, baby: Animal, w: real)
    requires Newborns(born, weights, sp)
    requires baby.weight == w && baby.species == sp && baby.p == DefaultParams(sp) && baby.age == 0 && !baby.hasMoved
    ensures Newborns(born + [baby], weights + [w], sp)
  {
  }

  /**
   * The state of the birth loop after i turns: the newborns so far, each mother before i at
   * her weight after her turn, each mother from i on at her weight before the season, and
   * every mother at her age a0[j].
   */
  ghost predicate BredAt(mothers: seq<Animal>, a0: seq<int>, w0: seq<real>, after: seq<real>, os: seq<Option<real>>,
                         sp: Species, i: nat, born: seq<Animal>)
    reads mothers, born
  {
    |a0| == |w0| == |after| == |os| == |mothers| && i <= |mothers| &&
    Newborns(born, Born(os[..i]), sp) && NoDup(born) &&
    (forall j :: 0 <= j < |mothers| ==> mothers[j].age == a0[j]) &&
    forall j :: 0 <= j < |mothers| ==> mothers[j].weight == if j < i then after[j] else w0[j]
  }

  /** BredAt, sealed: it is opened only where BredAt is mentioned for that i. */
  ghost predicate BredSoFar(mothers: seq<Animal>, a0: seq<int>, w0: seq<real>, after: seq<real>, os: seq<Option<real>>,
                            sp: Species, i: nat, born: seq<Animal>)
    reads mothers, born
  {
    |a0| == |w0| == |after| == |os| == |mothers| && i <= |mothers| &&
    forall m: nat :: m == i ==> BredAt(mothers, a0, w0, after, os, sp, m, born)
  }

  /** The birth loop done: every mother has had her turn. */
  lemma BredAll(mothers: seq<Animal>, a0: seq<int>, w0: seq<real>, after: seq<real>, os: seq<Option<real>>, sp: Species,
                born: seq<Animal>)
    requires BredSoFar(mothers, a0, w0, after, os, sp, |mothers|, born)
    ensures Newborns(born, Born(os), sp) && NoDup(born) && WeightsOf(mothers) == after
  {
    assert BredAt(mothers, a0, w0, after, os, sp, |mothers|, born);
    assert os[..|mothers|] == os;
  }

  /** Turn i of the birth loop, with the newborn, if any, appended to born. */
  method BreedTurn(mothers: seq<Animal>, i: nat, sp: Species, nSame: int, u: real, bw: real,
                   fit: FitnessFn, census: Census, born: seq<Animal>, ghost a0: seq<int>,
                   ghost w0: seq<real>, ghost after: seq<real>, ghost os: seq<Option<real>>)
    returns (born2: seq<Animal>)
    requires NoDup(mothers) && i < |mothers| && BredSoFar(mothers, a0, w0, after, os, sp, i, born)
    requires mothers[i] !in born
    requires os[i] == BirthOutcome(mothers[i].p, FitnessValue(fit, mothers[i].p, a0[i], w0[i]), w0[i], nSame, u, bw)
    requires after[i] == if os[i].Some? then w0[i] - BirthLoss(mothers[i].p, os[i].value) else w0[i]
    modifies mothers`weight, census
    ensures BredSoFar(mothers, a0, w0, after, os, sp, i + 1, born2)
    ensures |born| <= |born2| && forall j :: 0 <= j < |born| ==> born2[j] == born[j]
    ensures forall j :: |born| <= j < |born2| ==> fresh(born2[j])
    ensures census.Count(sp) == old(census.Count(sp)) + |born2| - |born|
    ensures forall t :: t != sp ==> census.Count(t) == old(census.Count(t))
  {
    assert BredAt(mothers, a0, w0, after, os, sp, i, born);
    var b, baby := BirthTurn(mothers[i], sp, nSame, u, bw, fit, census);
    BornStep(os, i);
    born2 := born;
    if baby.Some? {
      NewbornsSnoc(born, Born(os[..i]), sp, baby.value, b.value);
      NoDupAppend(born, [baby.value]);
      born2 := born + [baby.value];
    }
    assert BredAt(mothers, a0, w0, after, os, sp, i + 1, born2);
  }

  /** The ages of the animals of s. */
  ghost function AgesOf(s: seq<Animal>): (r: seq<int>)
    reads s
    ensures |r| == |s| && forall i :: 0 <= i < |s| ==> r[i] == s[i].age
  {
    seq(|s|, i requires 0 <= i < |s| reads s => s[i].age)
  }

  /**
   * The birth loop over one species' list: each mother has her turn with nSame, the count
   * taken before the season, and the newborns are collected in order.
   */
  method Breed(mothers: seq<Animal>, sp: Species, nSame: int, us: nat -> real, bws: nat -> real,
               fit: FitnessFn, census: Census, ghost fits: seq<real>, ghost w0: seq<real>)
    returns (born: seq<Animal>)
    requires NoDup(mothers) && fits == FitnessOf(mothers, fit) && w0 == WeightsOf(mothers)
    modifies mothers`weight, census
    ensures var os := BirthOutcomes(mothers, fits, w0, nSame, us, bws);
            Newborns(born, Born(os), sp) && WeightsOf(mothers) == AfterBirths(mothers, w0, os)
    ensures NoDup(born)
    ensures forall j :: 0 <= j < |born| ==> fresh(born[j])
    ensures census.Count(sp) == old(census.Count(sp)) + |born|
    ensures forall t :: t != sp ==> census.Count(t) == old(census.Count(t))
  {
    ghost var os := BirthOutcomes(mothers, fits, w0, nSame, us, bws);
    ghost var after := AfterBirths(mothers, w0, os);
    ghost var a0 := AgesOf(mothers);
    assert forall j :: 0 <= j < |mothers| ==> fits[j] == FitnessValue(fit, mothers[j].p, a0[j], w0[j]);
    born := [];
    assert BredAt(mothers, a0, w0, after, os, sp, 0, born);
    var i := 0;
    while i < |mothers|
      invariant 0 <= i <= |mothers|
      invariant BredSoFar(mothers, a0, w0, after, os, sp, i, born)
      invariant forall j :: 0 <= j < |born| ==> fresh(born[j])
      invariant census.Count(sp) == old(census.Count(sp)) + |born|
      invariant forall t :: t != sp ==> census.Count(t) == old(census.Count(t))
    {
      born := BreedTurn(mothers, i, sp, nSame, us(i), bws(i), fit, census, born, a0, w0, after, os);
      i := i + 1;
    }
    BredAll(mothers, a0, w0, after, os, sp, born);
  }

  /** The two birth loops of procreation, herbivores first, on the lists as they were before the season. */
  method BreedBoth(herbs: seq<Animal>, carns: seq<Animal>, fit: FitnessFn, us: nat -> real, bws: nat -> real,
                   census: Census, ghost fh: seq<real>, ghost wh: seq<real>, ghost fc: seq<real>, ghost wc: seq<real>)
    returns (newHerbs: seq<Animal>, newCarns: seq<Animal>)
    requires SpeciesLists(herbs, carns)
    requires fh == FitnessOf(herbs, fit) && wh == WeightsOf(herbs) && fc == FitnessOf(carns, fit) && wc == WeightsOf(carns)
    modifies herbs`weight, carns`weight, census
    ensures var os := BirthOutcomes(herbs, fh, wh, |herbs|, us, bws);
            Newborns(newHerbs, Born(os), Herbivore) && WeightsOf(herbs) == AfterBirths(herbs, wh, os)
    ensures var os := BirthOutcomes(carns, fc, wc, |carns|, Shift(us, |herbs|), Shift(bws, |herbs|));
            Newborns(newCarns, Born(os), Carnivore) && WeightsOf(carns) == AfterBirths(carns, wc, os)
    ensures NoDup(newHerbs) && NoDup(newCarns)
    ensures forall j :: 0 <= j < |newHerbs| ==> fresh(newHerbs[j])
    ensures forall j :: 0 <= j < |newCarns| ==> fresh(newCarns[j])
    ensures census.Count(Herbivore) == old(census.Count(Herbivore)) + |newHerbs|
    ensures census.Count(Carnivore) == old(census.Count(Carnivore)) + |newCarns|
  {
    assert forall i :: 0 <= i < |carns| ==> carns[i] !in herbs;
    newHerbs := Breed(herbs, Herbivore, |herbs|, us, bws, fit, census, fh, wh);
    assert FitnessOf(carns, fit) == fc && WeightsOf(carns) == wc;
    newCarns := Breed(carns, Carnivore, |carns|, Shift(us, |herbs|), Shift(bws, |herbs|), fit, census, fc, wc);
  }

  /** add_animals(new_herbs + new_carns) for newborns, which are not yet in the cell. */
  method AddNewborns(cell: Cell, hs: seq<Animal>, cs: seq<Animal>)
    requires cell.Valid() && NoDup(hs) && NoDup(cs)
    requires forall i :: 0 <= i < |hs| ==> hs[i].species == Herbivore && hs[i] !in cell.herbivores
    requires forall i :: 0 <= i < |cs| ==> cs[i].species == Carnivore && cs[i] !in cell.carnivores
    modifies cell`herbivores, cell`carnivores
    ensures cell.herbivores == old(cell.herbivores) + hs && cell.carnivores == old(cell.carnivores) + cs
    ensures cell.Valid()
  {
    NoDupAppend(cell.herbivores, hs);
    NoDupAppend(cell.carnivores, cs);
    OfSpeciesSplit(hs, cs);
    cell.AddAnimals(hs + cs);
  }

  /**
   * procreation: every herbivore has its birth turn with n_herbs and every carnivore with
   * n_carns, both counted before the season, and the newborns of both species are then
   * added to the cell. The herbivores use the draws us(0), bws(0), ... in list order and
   * the carnivores the draws that come after them.
   */
  method Procreation(cell: Cell, fit: FitnessFn, us: nat -> real, bws: nat -> real, census: Census)
    returns (newHerbs: seq<Animal>, newCarns: seq<Animal>)
    requires cell.Valid()
    modifies cell`herbivores, cell`carnivores, cell.herbivores`weight, cell.carnivores`weight, census
    ensures cell.Valid()
    ensures cell.herbivores == old(cell.herbivores) + newHerbs
    ensures cell.carnivores == old(cell.carnivores) + newCarns
    ensures var os := old(BirthOutcomes(cell.herbivores, FitnessOf(cell.herbivores, fit), WeightsOf(cell.herbivores),
                                        |cell.herbivores|, us, bws));
            Newborns(newHerbs, Born(os), Herbivore) &&
            WeightsOf(old(cell.herbivores)) == AfterBirths(old(cell.herbivores), old(WeightsOf(cell.herbivores)), os)
    ensures var n := |old(cell.herbivores)|;
            var os := old(BirthOutcomes(cell.carnivores, FitnessOf(cell.carnivores, fit), WeightsOf(cell.carnivores),
                                        |cell.carnivores|, Shift(us, n), Shift(bws, n)));
            Newborns(newCarns, Born(os), Carnivore) &&
            WeightsOf(old(cell.carnivores)) == AfterBirths(old(cell.carnivores), old(WeightsOf(cell.carnivores)), os)
    ensures forall j :: 0 <= j < |newHerbs| ==> fresh(newHerbs[j])
    ensures forall j :: 0 <= j < |newCarns| ==> fresh(newCarns[j])
    ensures census.Count(Herbivore) == old(census.Count(Herbivore)) + |newHerbs|
    ensures census.Count(Carnivore) == old(census.Count(Carnivore)) + |newCarns|
  {
    var herbs, carns := cell.herbivores, cell.carnivores;
    newHerbs, newCarns := BreedBoth(herbs, carns, fit, us, bws, census,
                                    FitnessOf(herbs, fit), WeightsOf(herbs), FitnessOf(carns, fit), WeightsOf(carns));
    assert forall i :: 0 <= i < |newHerbs| ==> newHerbs[i].species == Herbivore && newHerbs[i] !in herbs;
    assert forall i :: 0 <= i < |newCarns| ==> newCarns[i].species == Carnivore && newCarns[i] !in carns;
    AddNewborns(cell, newHerbs, newCarns);
  }

  // ---------------------------------------------------------------------------------------
  // Aging, loss of weight and death
  // ---------------------------------------------------------------------------------------

  /** Season 4: every animal of the cell, herbivores first, ages by one year. */
  method AgingSeason(cell: Cell)
    requires cell.Valid()
    modifies cell.Animals()`age
    ensures forall i :: 0 <= i < |cell.Animals()| ==> cell.Animals()[i].age == old(cell.Animals()[i].age) + 1
  {
    var all := cell.Animals();
    ListsNoDup(cell.herbivores, cell.carnivores);
    var i := 0;
    while i < |all|
      invariant 0 <= i <= |all|
      invariant forall j :: 0 <= j < |all| ==> all[j].age == old(all[j].age) + (if j < i then 1 else 0)
    {
      all[i].Aging();
      i := i + 1;
    }
  }

  /** Season 5: every animal of the cell loses the fraction eta of its weight. */
  method WeightLossSeason(cell: Cell)
    requires cell.Valid()
    modifies cell.Animals()`weight
    ensures forall i :: 0 <= i < |cell.Animals()| ==>
      cell.Animals()[i].weight == AfterWeightLoss(old(cell.Animals()[i].weight), cell.Animals()[i].p.eta)
  {
    var all := cell.Animals();
    ListsNoDup(cell.herbivores, cell.carnivores);
    var i := 0;
    while i < |all|
      invariant 0 <= i <= |all|
      invariant forall j :: 0 <= j < |all| ==>
        all[j].weight == if j < i then AfterWeightLoss(old(all[j].weight), all[j].p.eta) else old(all[j].weight)
    {
      all[i].LoseWeight();
      i := i + 1;
    }
  }

  /** Whether each animal dies, animal i with the uniform draw us(i). */
  function DeathFlags(all: seq<Animal>, fit: FitnessFn, us: nat -> real): (r: seq<bool>)
    reads all
    ensures |r| == |all|
    ensures forall i :: 0 <= i < |r| && !r[i] ==> all[i].weight > 0.0
  {
    seq(|all|, i requires 0 <= i < |all| reads all => DeathDrawn(all[i].p, all[i].Fitness(fit), all[i].weight, us(i)))
  }

  /** For the animals from i on, flags still says whether they die. */
  ghost predicate DeathsToCome(all: seq<Animal>, flags: seq<bool>, fit: FitnessFn, us: nat -> real, i: nat)
    reads all`age, all`weight
  {
    && |flags| == |all|
    && forall j :: i <= j < |all| ==> flags[j] == DeathDrawn(all[j].p, all[j].Fitness(fit), all[j].weight, us(j))
  }

  /** The counters went down by one for each dead animal of their species. */
  ghost predicate DeathsCounted(census: Census, herbs0: int, carns0: int, dead: seq<Animal>)
    reads census`herbivores, census`carnivores
  {
    && census.Count(Herbivore) == herbs0 - |OfSpecies(dead, Herbivore)|
    && census.Count(Carnivore) == carns0 - |OfSpecies(dead, Carnivore)|
  }

  /** One turn of season 6's loop: animal i has its death draw and is collected when it dies. */
  method DeathTurn(all: seq<Animal>, i: nat, fit: FitnessFn, us: nat -> real, census: Census, ghost flags: seq<bool>,
                   dead: seq<Animal>, ghost herbs0: int, ghost carns0: int)
    returns (dead': seq<Animal>)
    requires i < |all| && DeathsToCome(all, flags, fit, us, i)
    requires dead == Select(all[..i], flags[..i]) && DeathsCounted(census, herbs0, carns0, dead)
    modifies census`herbivores, census`carnivores
    ensures DeathsToCome(all, flags, fit, us, i + 1)
    ensures dead' == Select(all[..i + 1], flags[..i + 1]) && DeathsCounted(census, herbs0, carns0, dead')
  {
    var a := all[i];
    var dies := a.Death(us(i), fit, census);
    SelectTakeStep(all, flags, i);
    OfSpeciesSnoc(dead, a);
    dead' := if dies then dead + [a] else dead;
  }

  /** The loop of season 6: each animal has its death draw; the ones that die are collected in order. */
  method DrawDeaths(all: seq<Animal>, fit: FitnessFn, us: nat -> real, census: Census)
    returns (dead: seq<Animal>, ghost flags: seq<bool>)
    modifies census`herbivores, census`carnivores
    ensures |flags| == |all| && dead == Select(all, flags)
    ensures forall i :: 0 <= i < |all| ==> flags[i] == old(DeathDrawn(all[i].p, all[i].Fitness(fit), all[i].weight, us(i)))
    ensures forall i :: 0 <= i < |all| && !flags[i] ==> all[i].weight > 0.0
    ensures census.Count(Herbivore) == old(census.Count(Herbivore)) - |OfSpecies(dead, Herbivore)|
    ensures census.Count(Carnivore) == old(census.Count(Carnivore)) - |OfSpecies(dead, Carnivore)|
  {
    flags := DeathFlags(all, fit, us);
    assert DeathsToCome(all, flags, fit, us, 0);
    ghost var herbs0, carns0 := census.Count(Herbivore), census.Count(Carnivore);
    dead := [];
    var i := 0;
    while i < |all|
      invariant 0 <= i <= |all| && DeathsToCome(all, flags, fit, us, i)
      invariant dead == Select(all[..i], flags[..i]) && DeathsCounted(census, herbs0, carns0, dead)
    {
      dead := DeathTurn(all, i, fit, us, census, flags, dead, herbs0, carns0);
      i := i + 1;
    }
    assert all[..i] == all && flags[..i] == flags;
  }

  /** The second half of season 6: the dead are taken out of the cell, and only animals that were spared stay. */
  method Bury(cell: Cell, all: seq<Animal>, ghost flags: seq<bool>, dead: seq<Animal>)
    requires cell.Valid() && all == cell.Animals() && |flags| == |all| && dead == Select(all, flags)
    requires forall i :: 0 <= i < |all| && !flags[i] ==> all[i].weight > 0.0
    modifies cell`herbivores, cell`carnivores
    ensures Removal(cell.herbivores, cell.carnivores, true) == RemoveEach(old(cell.herbivores), old(cell.carnivores), dead)
    ensures multiset(cell.Animals()) + multiset(dead) == multiset(all)
    ensures cell.Valid()
    ensures forall i :: 0 <= i < |cell.Animals()| ==> cell.Animals()[i].weight > 0.0
  {
    SelectSubMultiset(all, flags);
    ListsNoDup(cell.herbivores, cell.carnivores);
    RemovingResidents(cell.herbivores, cell.carnivores, dead);
    var ok := cell.RemoveAnimals(dead);
    assert multiset(cell.Animals()) == multiset(cell.herbivores) + multiset(cell.carnivores);
    Survivors(all, flags, cell.Animals(), dead);
    forall i | 0 <= i < |cell.Animals()| ensures cell.Animals()[i].weight > 0.0 {
      var j :| 0 <= j < |all| && !flags[j] && all[j] == cell.Animals()[i];
    }
  }

  /**
   * Season 6: the animals that die, drawn in list order, are removed from the cell and their
   * species' counters go down. Every survivor has a positive weight.
   */
  method DeathSeason(cell: Cell, fit: FitnessFn, us: nat -> real, census: Census)
    returns (dead: seq<Animal>, ghost flags: seq<bool>)
    requires cell.Valid()
    modifies cell`herbivores, cell`carnivores, census`herbivores, census`carnivores
    ensures |flags| == old(|cell.Animals()|)
    ensures forall i :: 0 <= i < |flags| ==>
      flags[i] == old(DeathDrawn(cell.Animals()[i].p, cell.Animals()[i].Fitness(fit), cell.Animals()[i].weight, us(i)))
    ensures dead == Select(old(cell.Animals()), flags)
    ensures Removal(cell.herbivores, cell.carnivores, true) == RemoveEach(old(cell.herbivores), old(cell.carnivores), dead)
    ensures multiset(cell.Animals()) + multiset(dead) == old(multiset(cell.Animals()))
    ensures cell.Valid()
    ensures forall i :: 0 <= i < |cell.Animals()| ==> cell.Animals()[i].weight > 0.0
    ensures census.Count(Herbivore) == old(census.Count(Herbivore)) - |OfSpecies(dead, Herbivore)|
    ensures census.Count(Carnivore) == old(census.Count(Carnivore)) - |OfSpecies(dead, Carnivore)|
  {
    var all := cell.Animals();
    dead, flags := DrawDeaths(all, fit, us, census);
    Bury(cell, all, flags, dead);
  }

  /** What is left after taking out the selected elements of a list without repeats was not selected. */
  lemma Survivors<T>(s: seq<T>, keep: seq<bool>, rest: seq<T>, taken: seq<T>)
    requires |keep| == |s| && taken == Select(s, keep) && NoDup(s)
    requires multiset(rest) + multiset(taken) == multiset(s)
    ensures forall i :: 0 <= i < |rest| ==> exists j :: 0 <= j < |s| && !keep[j] && s[j] == rest[i]
  {
    TakenOut(rest, s, taken);
    forall i | 0 <= i < |rest| ensures exists j :: 0 <= j < |s| && !keep[j] && s[j] == rest[i] {
      var j :| 0 <= j < |s| && s[j] == rest[i];
      if keep[j] {
        SelectContains(s, keep, j);
        assert false;
      }
    }
  }
}
