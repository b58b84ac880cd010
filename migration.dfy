/**
 * migrate: the residents of a cell that are not yet flagged and whose draw is true move
 * to a randomly chosen land neighbour; the effect is stated over a sequence of cells, so
 * that the animals of the cells together are seen to be conserved.
 */
module Migration {
  import opened Seqs
  import opened Animals
  import opened Cells

  // ----- The animals of a sequence of cells -----

  /** The residents of each cell, as multisets. */
  ghost function ResidentsOf(cells: seq<Cell>): (r: seq<multiset<Animal>>)
    reads cells
    ensures |r| == |cells| && forall j :: 0 <= j < |cells| ==> r[j] == cells[j].Residents()
  {
    seq(|cells|, j requires 0 <= j < |cells| reads cells => cells[j].Residents())
  }

  /** Every animal living in the cells, counted once per list it is in. */
  ghost function Pop(cells: seq<Cell>): multiset<Animal>
    reads cells
  {
    Union(ResidentsOf(cells))
  }

  /** The same residents, from a copy of each cell's two lists. */
  function ListResidents(hs: seq<seq<Animal>>, cs: seq<seq<Animal>>): (r: seq<multiset<Animal>>)
    requires |hs| == |cs|
    ensures |r| == |hs| && forall j :: 0 <= j < |hs| ==> r[j] == multiset(hs[j]) + multiset(cs[j])
  {
    seq(|hs|, j requires 0 <= j < |hs| => multiset(hs[j]) + multiset(cs[j]))
  }

  /** When no animal is in two places, no list holds an animal twice. */
  lemma {:induction false} DistinctLists(hs: seq<seq<Animal>>, cs: seq<seq<Animal>>, j: nat)
    requires |hs| == |cs| && j < |hs| && Distinct(Union(ListResidents(hs, cs)))
    ensures NoDup(hs[j]) && NoDup(cs[j])
  {
    var ms := ListResidents(hs, cs);
    UnionContains(ms, j);
    SubDistinct(multiset(hs[j]), Union(ms));
    SubDistinct(multiset(cs[j]), Union(ms));
    NoDupIsDistinct(hs[j]);
    NoDupIsDistinct(cs[j]);
  }

  // ----- Migration -----

  /** For each animal of the list, in order: whether it is evaluated and its migrate() draw is true. */
  function Movers(all: seq<Animal>, fit: FitnessFn, us: nat -> real): (r: seq<bool>)
    reads all
    ensures |r| == |all|
    ensures forall i :: 0 <= i < |r| && all[i].hasMoved ==> !r[i]
    ensures forall i :: 0 <= i < |r| && all[i].p.mu <= 0.0 && 0.0 <= us(i) && UnitRange(fit) ==> !r[i]
  {
    seq(|all|, i requires 0 <= i < |all| reads all => !all[i].hasMoved && all[i].Migrates(us(i), fit))
  }

  /** The flags of the animals of the list. */
  ghost function MovedFlags(all: seq<Animal>): (r: seq<bool>)
    reads all
    ensures |r| == |all|
  {
    seq(|all|, i requires 0 <= i < |all| reads all => all[i].hasMoved)
  }

  /** Which movers go to neighbour d: random.choice picks neighbour choice(i) mod n for animal i. */
  function Chosen(flags: seq<bool>, choice: nat -> nat, n: nat, d: nat): (r: seq<bool>)
    requires n > 0
    ensures |r| == |flags|
    ensures forall i :: 0 <= i < |r| && r[i] ==> flags[i]
    ensures d >= n ==> forall i :: 0 <= i < |r| ==> !r[i]
  {
    seq(|flags|, i requires 0 <= i < |flags| => flags[i] && choice(i) % n == d)
  }

  /**
   * A mover goes to exactly one of the n neighbours, the one its choice draw picks, and an
   * animal that does not move goes to none.
   */
  lemma ChosenOnce(flags: seq<bool>, choice: nat -> nat, n: nat, i: nat)
    requires n > 0 && i < |flags|
    ensures flags[i] <==> exists d :: 0 <= d < n && Chosen(flags, choice, n, d)[i]
    ensures forall d, e :: Chosen(flags, choice, n, d)[i] && Chosen(flags, choice, n, e)[i] ==> d == e
  {
    if flags[i] {
      assert Chosen(flags, choice, n, choice(i) % n)[i];
    }
  }

  /** The animals sent to neighbour d, in the order they were sent. */
  function SentTo(all: seq<Animal>, flags: seq<bool>, choice: nat -> nat, n: nat, d: nat): seq<Animal>
    requires |flags| == |all| && n > 0
  {
    Select(all, Chosen(flags, choice, n, d))
  }

  lemma SentToStep(all: seq<Animal>, flags: seq<bool>, choice: nat -> nat, n: nat, d: nat, i: nat)
    requires |flags| == |all| && n > 0 && i < |all|
    ensures SentTo(all[..i + 1], flags[..i + 1], choice, n, d) ==
      SentTo(all[..i], flags[..i], choice, n, d) + (if flags[i] && choice(i) % n == d then [all[i]] else [])
  {
    var c := Chosen(flags[..i], choice, n, d);
    assert Chosen(flags[..i + 1], choice, n, d) == c + [flags[i] && choice(i) % n == d];
    SelectPrefixStep(all, c, i, flags[i] && choice(i) % n == d);
  }

  lemma MovedStep(all: seq<Animal>, flags: seq<bool>, i: nat)
    requires |flags| == |all| && i < |all|
    ensures Select(all[..i + 1], flags[..i + 1]) == Select(all[..i], flags[..i]) + (if flags[i] then [all[i]] else [])
  {
    assert flags[..i + 1] == flags[..i] + [flags[i]];
    SelectPrefixStep(all, flags[..i], i, flags[i]);
  }

  /** The species list an animal of its own joins: itself, and nothing for the other species. */
  function Own(a: Animal, sp: Species): seq<Animal>
  {
    if a.species == sp then [a] else []
  }

  lemma OfSpeciesOne(a: Animal)
    ensures OfSpecies([a], Herbivore) == Own(a, Herbivore) && OfSpecies([a], Carnivore) == Own(a, Carnivore)
  {
    OfSpeciesSnoc([], a);
    assert [] + [a] == [a];
    assert OfSpecies([], Herbivore) == [] && OfSpecies([], Carnivore) == [];
  }

  /** sent[d] holds the animals among the first i that went to neighbour d. */
  ghost predicate SentSoFar(all: seq<Animal>, flags: seq<bool>, choice: nat -> nat, n: nat, i: nat,
                            sent: seq<seq<Animal>>)
    requires |flags| == |all| && i <= |all|
  {
    |sent| == n && forall d :: 0 <= d < n ==> sent[d] == SentTo(all[..i], flags[..i], choice, n, d)
  }

  /** Each neighbour's lists are its lists at the start with the animals sent to it appended. */
  ghost predicate NeighboursSoFar(nbs: seq<nat>, sent: seq<seq<Animal>>,
                                  hs: seq<seq<Animal>>, cs: seq<seq<Animal>>, hs0: seq<seq<Animal>>, cs0: seq<seq<Animal>>)
  {
    && |sent| == |nbs| && |hs| == |cs| == |hs0| == |cs0|
    && (forall d :: 0 <= d < |nbs| ==> nbs[d] < |hs|)
    && (forall d :: 0 <= d < |nbs| ==>
          hs[nbs[d]] == hs0[nbs[d]] + OfSpecies(sent[d], Herbivore) &&
          cs[nbs[d]] == cs0[nbs[d]] + OfSpecies(sent[d], Carnivore))
  }

  /** The cells that are not neighbours keep their lists. */
  ghost predicate OthersKept(nbs: seq<nat>, hs: seq<seq<Animal>>, cs: seq<seq<Animal>>,
                             hs0: seq<seq<Animal>>, cs0: seq<seq<Animal>>)
  {
    && |hs| == |cs| == |hs0| == |cs0|
    && (forall j :: 0 <= j < |hs| && j !in nbs ==> hs[j] == hs0[j] && cs[j] == cs0[j])
  }

  /**
   * The state of the migration loop after the first i animals of all, the cell's animals
   * at the start: cells' lists are kept as copies hs, cs (hs0, cs0 at the start) and the
   * neighbours are nbs, positions in those copies. The movers so far are in moved and
   * sent[d] went to neighbour d; each has been added to its neighbour, and is still in its
   * own cell, so the whole counts it twice.
   */
  ghost predicate MigratedSoFar(all: seq<Animal>, flags: seq<bool>, choice: nat -> nat, nbs: seq<nat>, i: nat,
                                moved: seq<Animal>, sent: seq<seq<Animal>>,
                                hs: seq<seq<Animal>>, cs: seq<seq<Animal>>, hs0: seq<seq<Animal>>, cs0: seq<seq<Animal>>)
  {
    && |flags| == |all| && i <= |all|
    && moved == (if |nbs| > 0 then Select(all[..i], flags[..i]) else [])
    && SentSoFar(all, flags, choice, |nbs|, i, sent)
    && NeighboursSoFar(nbs, sent, hs, cs, hs0, cs0)
    && OthersKept(nbs, hs, cs, hs0, cs0)
    && Union(ListResidents(hs, cs)) == Union(ListResidents(hs0, cs0)) + multiset(moved)
  }

  /** A step of the migration loop for an animal that stays. */
  lemma StaysStep(all: seq<Animal>, flags: seq<bool>, choice: nat -> nat, nbs: seq<nat>, i: nat,
                  moved: seq<Animal>, sent: seq<seq<Animal>>,
                  hs: seq<seq<Animal>>, cs: seq<seq<Animal>>, hs0: seq<seq<Animal>>, cs0: seq<seq<Animal>>)
    requires MigratedSoFar(all, flags, choice, nbs, i, moved, sent, hs, cs, hs0, cs0) && i < |all|
    requires !flags[i] || |nbs| == 0
    ensures MigratedSoFar(all, flags, choice, nbs, i + 1, moved, sent, hs, cs, hs0, cs0)
  {
    if |nbs| > 0 {
      MovedStep(all, flags, i);
      forall d | 0 <= d < |nbs| ensures sent[d] == SentTo(all[..i + 1], flags[..i + 1], choice, |nbs|, d) {
        SentToStep(all, flags, choice, |nbs|, d, i);
      }
    }
  }

  lemma SentMoves(all: seq<Animal>, flags: seq<bool>, choice: nat -> nat, n: nat, i: nat,
                  sent: seq<seq<Animal>>, d: nat, sent': seq<seq<Animal>>)
    requires |flags| == |all| && i < |all| && flags[i] && n > 0 && d == choice(i) % n
    requires SentSoFar(all, flags, choice, n, i, sent) && sent' == sent[d := sent[d] + [all[i]]]
    ensures SentSoFar(all, flags, choice, n, i + 1, sent')
  {
    forall e | 0 <= e < n ensures sent'[e] == SentTo(all[..i + 1], flags[..i + 1], choice, n, e) {
      SentToStep(all, flags, choice, n, e, i);
    }
  }

  lemma NeighbourMoves(nbs: seq<nat>, sent: seq<seq<Animal>>, hs: seq<seq<Animal>>, cs: seq<seq<Animal>>,
                       hs0: seq<seq<Animal>>, cs0: seq<seq<Animal>>, d: nat, a: Animal,
                       sent': seq<seq<Animal>>, hs': seq<seq<Animal>>, cs': seq<seq<Animal>>)
    requires NeighboursSoFar(nbs, sent, hs, cs, hs0, cs0) && NoDup(nbs) && d < |nbs|
    requires sent' == sent[d := sent[d] + [a]]
    requires hs' == hs[nbs[d] := hs[nbs[d]] + Own(a, Herbivore)]
    requires cs' == cs[nbs[d] := cs[nbs[d]] + Own(a, Carnivore)]
    ensures NeighboursSoFar(nbs, sent', hs', cs', hs0, cs0)
  {
    OfSpeciesSnoc(sent[d], a);
    var j := nbs[d];
    assert OfSpecies(sent'[d], Herbivore) == OfSpecies(sent[d], Herbivore) + Own(a, Herbivore);
    assert OfSpecies(sent'[d], Carnivore) == OfSpecies(sent[d], Carnivore) + Own(a, Carnivore);
    assert hs'[j] == hs0[j] + (OfSpecies(sent[d], Herbivore) + Own(a, Herbivore));
    assert cs'[j] == cs0[j] + (OfSpecies(sent[d], Carnivore) + Own(a, Carnivore));
    forall e | 0 <= e < |nbs| && e != d ensures
      hs'[nbs[e]] == hs0[nbs[e]] + OfSpecies(sent'[e], Herbivore) &&
      cs'[nbs[e]] == cs0[nbs[e]] + OfSpecies(sent'[e], Carnivore)
    {
      assert nbs[e] != j;
    }
  }

  lemma OthersStillKept(nbs: seq<nat>, hs: seq<seq<Animal>>, cs: seq<seq<Animal>>,
                        hs0: seq<seq<Animal>>, cs0: seq<seq<Animal>>, j: nat, a: Animal,
                        hs': seq<seq<Animal>>, cs': seq<seq<Animal>>)
    requires OthersKept(nbs, hs, cs, hs0, cs0) && j in nbs && j < |hs|
    requires hs' == hs[j := hs[j] + Own(a, Herbivore)]
    requires cs' == cs[j := cs[j] + Own(a, Carnivore)]
    ensures OthersKept(nbs, hs', cs', hs0, cs0)
  {
  }

  lemma ResidentsMove(hs: seq<seq<Animal>>, cs: seq<seq<Animal>>, j: nat, a: Animal,
                      hs': seq<seq<Animal>>, cs': seq<seq<Animal>>)
    requires |hs| == |cs| && j < |hs|
    requires hs' == hs[j := hs[j] + Own(a, Herbivore)]
    requires cs' == cs[j := cs[j] + Own(a, Carnivore)]
    ensures Union(ListResidents(hs', cs')) == Union(ListResidents(hs, cs)) + multiset{a}
  {
    var ms := ListResidents(hs, cs);
    assert multiset(Own(a, Herbivore)) + multiset(Own(a, Carnivore)) == multiset{a};
    forall k | 0 <= k < |hs| ensures ListResidents(hs', cs')[k] == ms[j := ms[j] + multiset{a}][k] {
      if k == j {
        assert multiset(hs'[k]) == multiset(hs[k]) + multiset(Own(a, Herbivore));
        assert multiset(cs'[k]) == multiset(cs[k]) + multiset(Own(a, Carnivore));
      }
    }
    assert ListResidents(hs', cs') == ms[j := ms[j] + multiset{a}];
    UnionAddOne(ms, j, a, ListResidents(hs', cs'));
  }

  /** A step of the migration loop for an animal that moves to neighbour choice(i) mod n. */
  lemma MovesStep(all: seq<Animal>, flags: seq<bool>, choice: nat -> nat, nbs: seq<nat>, i: nat,
                  moved: seq<Animal>, sent: seq<seq<Animal>>,
                  hs: seq<seq<Animal>>, cs: seq<seq<Animal>>, hs0: seq<seq<Animal>>, cs0: seq<seq<Animal>>,
                  d: nat, sent': seq<seq<Animal>>, hs': seq<seq<Animal>>, cs': seq<seq<Animal>>)
    requires MigratedSoFar(all, flags, choice, nbs, i, moved, sent, hs, cs, hs0, cs0) && i < |all|
    requires flags[i] && |nbs| > 0 && NoDup(nbs) && d == choice(i) % |nbs|
    requires sent' == sent[d := sent[d] + [all[i]]]
    requires hs' == hs[nbs[d] := hs[nbs[d]] + Own(all[i], Herbivore)]
    requires cs' == cs[nbs[d] := cs[nbs[d]] + Own(all[i], Carnivore)]
    ensures MigratedSoFar(all, flags, choice, nbs, i + 1, moved + [all[i]], sent', hs', cs', hs0, cs0)
  {
    MovedStep(all, flags, i);
    SentMoves(all, flags, choice, |nbs|, i, sent, d, sent');
    NeighbourMoves(nbs, sent, hs, cs, hs0, cs0, d, all[i], sent', hs', cs');
    OthersStillKept(nbs, hs, cs, hs0, cs0, nbs[d], all[i], hs', cs');
    ResidentsMove(hs, cs, nbs[d], all[i], hs', cs');
  }

  /** Each cell's herbivore list. */
  function HerbLists(cells: seq<Cell>): (r: seq<seq<Animal>>)
    reads cells
    ensures |r| == |cells| && forall j :: 0 <= j < |cells| ==> r[j] == cells[j].herbivores
  {
    seq(|cells|, j requires 0 <= j < |cells| reads cells => cells[j].herbivores)
  }

  /** Each cell's carnivore list. */
  function CarnLists(cells: seq<Cell>): (r: seq<seq<Animal>>)
    reads cells
    ensures |r| == |cells| && forall j :: 0 <= j < |cells| ==> r[j] == cells[j].carnivores
  {
    seq(|cells|, j requires 0 <= j < |cells| reads cells => cells[j].carnivores)
  }

  lemma PopOfLists(cells: seq<Cell>, hs: seq<seq<Animal>>, cs: seq<seq<Animal>>)
    requires |hs| == |cs| == |cells|
    requires forall j :: 0 <= j < |cells| ==> cells[j].herbivores == hs[j] && cells[j].carnivores == cs[j]
    ensures Pop(cells) == Union(ListResidents(hs, cs))
  {
    assert ResidentsOf(cells) == ListResidents(hs, cs);
  }

  /** The lists hs, cs are copies of the cells' lists. */
  ghost predicate Mirrors(cells: seq<Cell>, hs: seq<seq<Animal>>, cs: seq<seq<Animal>>)
    reads cells`herbivores, cells`carnivores
  {
    && |hs| == |cs| == |cells|
    && (forall j :: 0 <= j < |cells| ==> cells[j].herbivores == hs[j] && cells[j].carnivores == cs[j])
  }

  /** The copies are the cells' own lists. */
  lemma MirrorsAreLists(cells: seq<Cell>, hs: seq<seq<Animal>>, cs: seq<seq<Animal>>)
    requires Mirrors(cells, hs, cs)
    ensures HerbLists(cells) == hs && CarnLists(cells) == cs
  {
  }

  /** Adds a to cell k, the copies following. */
  method SendTo(cells: seq<Cell>, k: nat, dest: Cell, a: Animal, ghost hs: seq<seq<Animal>>, ghost cs: seq<seq<Animal>>)
    returns (ghost hs2: seq<seq<Animal>>, ghost cs2: seq<seq<Animal>>)
    requires NoDup(cells) && k < |cells| && dest == cells[k] && Mirrors(cells, hs, cs)
    modifies dest`herbivores, dest`carnivores
    ensures hs2 == hs[k := hs[k] + Own(a, Herbivore)] && cs2 == cs[k := cs[k] + Own(a, Carnivore)]
    ensures Mirrors(cells, hs2, cs2)
  {
    dest.AddAnimals([a]);
    OfSpeciesOne(a);
    hs2, cs2 := hs[k := hs[k] + Own(a, Herbivore)], cs[k := cs[k] + Own(a, Carnivore)];
    forall j | 0 <= j < |cells| ensures cells[j].herbivores == hs2[j] && cells[j].carnivores == cs2[j] {
      if j != k {
        assert cells[j] != dest;
      }
    }
  }

  /** The first i animals of all have their flag raised when they go; the others keep theirs. */
  ghost predicate FlaggedSoFar(all: seq<Animal>, was: seq<bool>, flags: seq<bool>, i: nat)
    reads all`hasMoved
  {
    && |was| == |flags| == |all| && i <= |all|
    && forall j :: 0 <= j < |all| ==> all[j].hasMoved == if j < i then was[j] || flags[j] else was[j]
  }

  /** For the animals from i on, flags still says whether they go. */
  ghost predicate StillToCome(all: seq<Animal>, flags: seq<bool>, fit: FitnessFn, us: nat -> real, i: nat)
    reads all`hasMoved, all`age, all`weight
  {
    && |flags| == |all|
    && forall j :: i <= j < |all| ==> flags[j] == (!all[j].hasMoved && all[j].Migrates(us(j), fit))
  }

  /** The first half of a turn of migrate's loop: animal i, when it goes, is flagged. */
  method FlagTurn(all: seq<Animal>, i: nat, a: Animal, fit: FitnessFn, us: nat -> real,
                  ghost was: seq<bool>, ghost flags: seq<bool>) returns (goes: bool)
    requires NoDup(all) && i < |all| && a == all[i]
    requires FlaggedSoFar(all, was, flags, i) && StillToCome(all, flags, fit, us, i)
    modifies a`hasMoved
    ensures goes == flags[i]
    ensures FlaggedSoFar(all, was, flags, i + 1) && StillToCome(all, flags, fit, us, i + 1)
  {
    goes := !a.hasMoved && a.Migrates(us(i), fit);
    if goes {
      a.hasMoved := true;
    }
    forall j | 0 <= j < |all| && j != i ensures all[j] != a {
      assert NoDup(all);
    }
  }

  /**
   * The second half of a turn of migrate's loop: animal i, when it goes and there are
   * neighbours, is added to neighbour choice(i) mod n.
   */
  method MigrateTurn(cells: seq<Cell>, nbs: seq<nat>, a: Animal, i: nat, goes: bool, choice: nat -> nat,
                     moved: seq<Animal>, ghost all: seq<Animal>, ghost flags: seq<bool>,
                     ghost sent: seq<seq<Animal>>, ghost hs: seq<seq<Animal>>, ghost cs: seq<seq<Animal>>,
                     ghost hs0: seq<seq<Animal>>, ghost cs0: seq<seq<Animal>>)
    returns (moved2: seq<Animal>, ghost sent2: seq<seq<Animal>>, ghost hs2: seq<seq<Animal>>, ghost cs2: seq<seq<Animal>>)
    requires NoDup(cells) && NoDup(nbs) && Mirrors(cells, hs, cs)
    requires MigratedSoFar(all, flags, choice, nbs, i, moved, sent, hs, cs, hs0, cs0)
    requires i < |all| && a == all[i] && goes == flags[i]
    modifies cells`herbivores, cells`carnivores
    ensures MigratedSoFar(all, flags, choice, nbs, i + 1, moved2, sent2, hs2, cs2, hs0, cs0)
    ensures Mirrors(cells, hs2, cs2)
  {
    moved2, sent2, hs2, cs2 := moved, sent, hs, cs;
    if goes && |nbs| > 0 {
      var d := choice(i) % |nbs|;
      hs2, cs2 := SendTo(cells, nbs[d], cells[nbs[d]], a, hs, cs);
      sent2 := sent[d := sent[d] + [a]];
      MovesStep(all, flags, choice, nbs, i, moved, sent, hs, cs, hs0, cs0, d, sent2, hs2, cs2);
      moved2 := moved + [a];
    } else {
      StaysStep(all, flags, choice, nbs, i, moved, sent, hs, cs, hs0, cs0);
    }
  }

  /** One turn of migrate's loop, for animal i of all. */
  method Turn(cells: seq<Cell>, all: seq<Animal>, nbs: seq<nat>, i: nat, fit: FitnessFn, us: nat -> real,
              choice: nat -> nat, moved: seq<Animal>, ghost flags: seq<bool>, ghost was: seq<bool>,
              ghost sent: seq<seq<Animal>>, ghost hs: seq<seq<Animal>>, ghost cs: seq<seq<Animal>>,
              ghost hs0: seq<seq<Animal>>, ghost cs0: seq<seq<Animal>>)
    returns (moved2: seq<Animal>, ghost sent2: seq<seq<Animal>>, ghost hs2: seq<seq<Animal>>, ghost cs2: seq<seq<Animal>>)
    requires NoDup(cells) && NoDup(nbs) && NoDup(all) && i < |all| && Mirrors(cells, hs, cs)
    requires MigratedSoFar(all, flags, choice, nbs, i, moved, sent, hs, cs, hs0, cs0)
    requires FlaggedSoFar(all, was, flags, i) && StillToCome(all, flags, fit, us, i)
    modifies cells`herbivores, cells`carnivores, all`hasMoved
    ensures MigratedSoFar(all, flags, choice, nbs, i + 1, moved2, sent2, hs2, cs2, hs0, cs0)
    ensures Mirrors(cells, hs2, cs2)
    ensures FlaggedSoFar(all, was, flags, i + 1) && StillToCome(all, flags, fit, us, i + 1)
  {
    var goes := FlagTurn(all, i, all[i], fit, us, was, flags);
    moved2, sent2, hs2, cs2 := MigrateTurn(cells, nbs, all[i], i, goes, choice, moved, all, flags, sent, hs, cs, hs0, cs0);
  }

  /**
   * The loop of migrate over the animals all of a cell, before the movers are removed:
   * animal i, when flags[i] says it goes, is flagged and, when there are neighbours, added
   * to neighbour choice(i) mod n and collected in moved.
   */
  method MigrateLoop(cells: seq<Cell>, all: seq<Animal>, nbs: seq<nat>, fit: FitnessFn, us: nat -> real,
                     choice: nat -> nat, ghost flags: seq<bool>, ghost was: seq<bool>,
                     ghost hs0: seq<seq<Animal>>, ghost cs0: seq<seq<Animal>>)
    returns (moved: seq<Animal>, ghost sent: seq<seq<Animal>>, ghost hs: seq<seq<Animal>>, ghost cs: seq<seq<Animal>>)
    requires NoDup(cells) && NoDup(nbs) && NoDup(all) && Mirrors(cells, hs0, cs0)
    requires forall d :: 0 <= d < |nbs| ==> nbs[d] < |cells|
    requires flags == Movers(all, fit, us) && was == MovedFlags(all)
    modifies cells`herbivores, cells`carnivores, all`hasMoved
    ensures MigratedSoFar(all, flags, choice, nbs, |all|, moved, sent, hs, cs, hs0, cs0)
    ensures Mirrors(cells, hs, cs)
    ensures forall j :: 0 <= j < |all| ==> all[j].hasMoved == (was[j] || flags[j])
  {
    hs, cs := hs0, cs0;
    sent := seq(|nbs|, d => []);
    moved := [];
    var i := 0;
    while i < |all|
      invariant 0 <= i <= |all| && Mirrors(cells, hs, cs)
      invariant MigratedSoFar(all, flags, choice, nbs, i, moved, sent, hs, cs, hs0, cs0)
      invariant FlaggedSoFar(all, was, flags, i) && StillToCome(all, flags, fit, us, i)
    {
      moved, sent, hs, cs := Turn(cells, all, nbs, i, fit, us, choice, moved, flags, was, sent, hs, cs, hs0, cs0);
      i := i + 1;
    }
  }

  /** The loop's state once every animal has had its turn. */
  lemma LoopDone(all: seq<Animal>, flags: seq<bool>, choice: nat -> nat, nbs: seq<nat>, moved: seq<Animal>,
                 sent: seq<seq<Animal>>, hs: seq<seq<Animal>>, cs: seq<seq<Animal>>,
                 hs0: seq<seq<Animal>>, cs0: seq<seq<Animal>>)
    requires MigratedSoFar(all, flags, choice, nbs, |all|, moved, sent, hs, cs, hs0, cs0)
    ensures moved == if |nbs| > 0 then Select(all, flags) else []
    ensures |sent| == |nbs| && forall d :: 0 <= d < |nbs| ==> sent[d] == SentTo(all, flags, choice, |nbs|, d)
    ensures forall d :: 0 <= d < |nbs| ==>
      && nbs[d] < |hs|
      && hs[nbs[d]] == hs0[nbs[d]] + OfSpecies(sent[d], Herbivore)
      && cs[nbs[d]] == cs0[nbs[d]] + OfSpecies(sent[d], Carnivore)
    ensures |hs| == |cs| == |hs0| == |cs0|
    ensures forall j :: 0 <= j < |hs| && j !in nbs ==> hs[j] == hs0[j] && cs[j] == cs0[j]
    ensures Union(ListResidents(hs, cs)) == Union(ListResidents(hs0, cs0)) + multiset(moved)
    ensures PureLists(hs0, cs0) ==> PureLists(hs, cs)
  {
    assert all[..|all|] == all && flags[..|flags|] == flags;
    if PureLists(hs0, cs0) {
      PureAfter(nbs, sent, hs, cs, hs0, cs0);
    }
  }

  /**
   * The first half of migrate(cell): every mover of all is sent to its chosen neighbour and
   * flagged. Stated on copies of the lists: hs0/cs0 before, hs/cs after.
   */
  method MoveOut(cells: seq<Cell>, all: seq<Animal>, nbs: seq<nat>, fit: FitnessFn, us: nat -> real,
                 choice: nat -> nat, ghost flags: seq<bool>, ghost was: seq<bool>,
                 ghost hs0: seq<seq<Animal>>, ghost cs0: seq<seq<Animal>>)
    returns (moved: seq<Animal>, ghost sent: seq<seq<Animal>>, ghost hs: seq<seq<Animal>>, ghost cs: seq<seq<Animal>>)
    requires NoDup(cells) && NoDup(nbs) && NoDup(all) && Mirrors(cells, hs0, cs0) && PureLists(hs0, cs0)
    requires forall d :: 0 <= d < |nbs| ==> nbs[d] < |cells|
    requires flags == Movers(all, fit, us) && was == MovedFlags(all)
    modifies cells`herbivores, cells`carnivores, all`hasMoved
    ensures Mirrors(cells, hs, cs) && PureLists(hs, cs)
    ensures moved == if |nbs| > 0 then Select(all, flags) else []
    ensures multiset(moved) <= multiset(all)
    ensures |sent| == |nbs| && forall d :: 0 <= d < |nbs| ==> sent[d] == SentTo(all, flags, choice, |nbs|, d)
    ensures forall d :: 0 <= d < |nbs| ==>
      && nbs[d] < |hs|
      && hs[nbs[d]] == hs0[nbs[d]] + OfSpecies(sent[d], Herbivore)
      && cs[nbs[d]] == cs0[nbs[d]] + OfSpecies(sent[d], Carnivore)
    ensures |hs| == |cs| == |hs0| == |cs0|
    ensures forall j :: 0 <= j < |hs| && j !in nbs ==> hs[j] == hs0[j] && cs[j] == cs0[j]
    ensures Union(ListResidents(hs, cs)) == Union(ListResidents(hs0, cs0)) + multiset(moved)
    ensures AllMoved(moved)
  {
    moved, sent, hs, cs := MigrateLoop(cells, all, nbs, fit, us, choice, flags, was, hs0, cs0);
    LoopDone(all, flags, choice, nbs, moved, sent, hs, cs, hs0, cs0);
    if |nbs| > 0 {
      SelectSubMultiset(all, flags);
      ChosenFlagged(all, flags, moved);
    }
  }

  /** Appending animals of the right species keeps the lists pure. */
  lemma PureAfter(nbs: seq<nat>, sent: seq<seq<Animal>>, hs: seq<seq<Animal>>, cs: seq<seq<Animal>>,
                  hs0: seq<seq<Animal>>, cs0: seq<seq<Animal>>)
    requires NeighboursSoFar(nbs, sent, hs, cs, hs0, cs0) && OthersKept(nbs, hs, cs, hs0, cs0) && PureLists(hs0, cs0)
    ensures PureLists(hs, cs)
  {
    forall j | 0 <= j < |hs| ensures OwnSpecies(hs[j], Herbivore) && OwnSpecies(cs[j], Carnivore) {
      if j in nbs {
        var d :| 0 <= d < |nbs| && nbs[d] == j;
        assert OwnSpecies(OfSpecies(sent[d], Herbivore), Herbivore);
        assert OwnSpecies(OfSpecies(sent[d], Carnivore), Carnivore);
      }
    }
  }

  // ----- The whole of migrate, and the island's consistency -----

  /** Every cell keeps its lists in order: right species, no animal twice. */
  ghost predicate AllValid(cells: seq<Cell>)
    reads cells`herbivores, cells`carnivores
  {
    forall j :: 0 <= j < |cells| ==> cells[j].Valid()
  }

  /** Every animal of the list is of species sp. */
  ghost predicate OwnSpecies(s: seq<Animal>, sp: Species)
  {
    forall k :: 0 <= k < |s| ==> s[k].species == sp
  }

  /** Copies of cells' lists that hold their own species only. */
  ghost predicate PureLists(hs: seq<seq<Animal>>, cs: seq<seq<Animal>>)
  {
    && |hs| == |cs|
    && forall j :: 0 <= j < |hs| ==> OwnSpecies(hs[j], Herbivore) && OwnSpecies(cs[j], Carnivore)
  }

  /** No animal of s has its has_moved flag set. */
  ghost predicate Unmoved(s: seq<Animal>)
    reads s`hasMoved
  {
    forall i :: 0 <= i < |s| ==> !s[i].hasMoved
  }

  /** Every animal of s has its has_moved flag set. */
  ghost predicate AllMoved(s: seq<Animal>)
    reads s`hasMoved
  {
    forall i :: 0 <= i < |s| ==> s[i].hasMoved
  }

  /** The animals picked out by the flags are the ones whose has_moved flag is set. */
  lemma ChosenFlagged(all: seq<Animal>, flags: seq<bool>, moved: seq<Animal>)
    requires |flags| == |all| && moved == Select(all, flags)
    requires forall j :: 0 <= j < |all| && flags[j] ==> all[j].hasMoved
    ensures AllMoved(moved)
  {
    forall k | 0 <= k < |moved| ensures moved[k].hasMoved {
      SelectKept(all, flags, k);
    }
  }

  /** Replacing one cell's lists by lists of their own species keeps the copies pure. */
  lemma PureUpdate(hs: seq<seq<Animal>>, cs: seq<seq<Animal>>, j: nat, h: seq<Animal>, c: seq<Animal>)
    requires PureLists(hs, cs) && j < |hs| && SpeciesLists(h, c)
    ensures PureLists(hs[j := h], cs[j := c])
  {
    assert OwnSpecies(h, Herbivore) && OwnSpecies(c, Carnivore);
  }

  /** Every cell is a land cell. */
  predicate Land(cells: seq<Cell>)
  {
    forall j :: 0 <= j < |cells| ==> cells[j].terrain != Water
  }

  lemma PureOfValid(cells: seq<Cell>, hs: seq<seq<Animal>>, cs: seq<seq<Animal>>)
    requires AllValid(cells) && Mirrors(cells, hs, cs)
    ensures Land(cells) && PureLists(hs, cs)
  {
    forall j | 0 <= j < |cells| ensures OwnSpecies(hs[j], Herbivore) && OwnSpecies(cs[j], Carnivore) {
      assert cells[j].Valid();
    }
  }

  /** When no animal lives in two places, land cells with lists of the right species are valid. */
  lemma ValidFromLists(cells: seq<Cell>, hs: seq<seq<Animal>>, cs: seq<seq<Animal>>)
    requires Mirrors(cells, hs, cs) && Land(cells) && PureLists(hs, cs) && Distinct(Union(ListResidents(hs, cs)))
    ensures AllValid(cells)
  {
    forall j | 0 <= j < |cells| ensures cells[j].Valid() {
      DistinctLists(hs, cs, j);
    }
  }

  /** Replacing the lists of cell j takes what they lost out of the union. */
  lemma ListsTakeOut(hs: seq<seq<Animal>>, cs: seq<seq<Animal>>, j: nat, h: seq<Animal>, c: seq<Animal>, m: multiset<Animal>)
    requires |hs| == |cs| && j < |hs|
    requires multiset(h) + multiset(c) + m == multiset(hs[j]) + multiset(cs[j])
    ensures Union(ListResidents(hs[j := h], cs[j := c])) + m == Union(ListResidents(hs, cs))
  {
    var ms := ListResidents(hs, cs);
    var ms' := ListResidents(hs[j := h], cs[j := c]);
    MinusOfSum(multiset(h) + multiset(c), m, ms[j]);
    assert ms' == ms[j := ms[j] - m];
    UnionTakeOut(ms, j, m, ms');
  }

  /**
   * Takes the animals xs out of cell ci, whose lists are hs[ci] and cs[ci]; the new lists
   * h, cl are what removing each of xs leaves, and they lose exactly xs.
   */
  method TakeOut(cells: seq<Cell>, ci: nat, c: Cell, xs: seq<Animal>, ghost hs: seq<seq<Animal>>, ghost cs: seq<seq<Animal>>)
    returns (ghost h: seq<Animal>, ghost cl: seq<Animal>)
    requires NoDup(cells) && ci < |cells| && c == cells[ci] && Mirrors(cells, hs, cs)
    requires SpeciesLists(hs[ci], cs[ci]) && multiset(xs) <= multiset(hs[ci]) + multiset(cs[ci])
    modifies c`herbivores, c`carnivores
    ensures h == c.herbivores && cl == c.carnivores
    ensures Removal(h, cl, true) == RemoveEach(hs[ci], cs[ci], xs) && SpeciesLists(h, cl)
    ensures multiset(h) + multiset(cl) + multiset(xs) == multiset(hs[ci]) + multiset(cs[ci])
    ensures Mirrors(cells, hs[ci := h], cs[ci := cl])
  {
    RemovingResidents(hs[ci], cs[ci], xs);
    var ok := c.RemoveAnimals(xs);
    h, cl := c.herbivores, c.carnivores;
    ghost var hs', cs' := hs[ci := h], cs[ci := cl];
    forall j | 0 <= j < |cells| ensures cells[j].herbivores == hs'[j] && cells[j].carnivores == cs'[j] {
      if j != ci {
        assert cells[j] != c;
      }
    }
  }

  /**
   * The end of migrate for cell c: the movers leave it, and the animals that remain, now in
   * lists h and cl, have their flag cleared; the movers keep theirs.
   */
  method Leave(cells: seq<Cell>, ci: nat, c: Cell, moved: seq<Animal>, ghost all: seq<Animal>,
               ghost hs: seq<seq<Animal>>, ghost cs: seq<seq<Animal>>)
    returns (ghost h: seq<Animal>, ghost cl: seq<Animal>)
    requires NoDup(cells) && ci < |cells| && c == cells[ci] && Mirrors(cells, hs, cs)
    requires SpeciesLists(hs[ci], cs[ci]) && all == hs[ci] + cs[ci] && NoDup(all)
    requires multiset(moved) <= multiset(all) && AllMoved(moved)
    modifies c`herbivores, c`carnivores, all`hasMoved
    ensures Removal(h, cl, true) == RemoveEach(hs[ci], cs[ci], moved) && SpeciesLists(h, cl)
    ensures multiset(h) + multiset(cl) + multiset(moved) == multiset(hs[ci]) + multiset(cs[ci])
    ensures Mirrors(cells, hs[ci := h], cs[ci := cl])
    ensures Unmoved(h + cl) && AllMoved(moved)
  {
    assert multiset(all) == multiset(hs[ci]) + multiset(cs[ci]);
    h, cl := TakeOut(cells, ci, c, moved, hs, cs);
    assert multiset(h + cl) == multiset(h) + multiset(cl);
    TakenOut(h + cl, all, moved);
    ClearFlags(c, moved, all, h + cl);
  }

  /** reset_animals for cell c, whose animals are among all; the animals of moved are elsewhere. */
  method ClearFlags(c: Cell, moved: seq<Animal>, ghost all: seq<Animal>, ghost rest: seq<Animal>)
    requires rest == c.Animals()
    requires forall i :: 0 <= i < |rest| ==> rest[i] in all
    requires forall k :: 0 <= k < |moved| ==> moved[k] !in rest
    modifies all`hasMoved
    ensures Unmoved(rest)
    ensures forall k :: 0 <= k < |moved| ==> moved[k].hasMoved == old(moved[k].hasMoved)
  {
    c.ResetAnimals();
    assert c.herbivores == old(c.herbivores) && c.carnivores == old(c.carnivores);
    assert c.Animals() == rest;
  }

  /**
   * The loop of migrate(cell) for cell ci: the movers among its animals all are sent to their
   * chosen neighbours and flagged. The lists are given as copies, hs0/cs0 before and hs/cs after.
   */
  method Depart(cells: seq<Cell>, ci: nat, nbs: seq<nat>, fit: FitnessFn, us: nat -> real, choice: nat -> nat)
    returns (moved: seq<Animal>, ghost all: seq<Animal>, ghost flags: seq<bool>, ghost sent: seq<seq<Animal>>,
             ghost hs0: seq<seq<Animal>>, ghost cs0: seq<seq<Animal>>, ghost hs: seq<seq<Animal>>, ghost cs: seq<seq<Animal>>)
    requires ci < |cells| && NoDup(cells) && NoDup(nbs) && AllValid(cells) && Distinct(Pop(cells))
    requires forall d :: 0 <= d < |nbs| ==> nbs[d] < |cells| && nbs[d] != ci
    modifies cells`herbivores, cells`carnivores, cells[ci].Animals()`hasMoved
    ensures hs0 == old(HerbLists(cells)) && cs0 == old(CarnLists(cells)) && Mirrors(cells, hs, cs)
    ensures all == hs0[ci] + cs0[ci] && |flags| == |all|
    ensures forall i :: 0 <= i < |all| ==> flags[i] == old(!all[i].hasMoved && all[i].Migrates(us(i), fit))
    ensures moved == if |nbs| > 0 then Select(all, flags) else []
    ensures |sent| == |nbs| && forall d :: 0 <= d < |nbs| ==> sent[d] == SentTo(all, flags, choice, |nbs|, d)
    ensures forall d :: 0 <= d < |nbs| ==>
      && nbs[d] < |hs|
      && hs[nbs[d]] == hs0[nbs[d]] + OfSpecies(sent[d], Herbivore)
      && cs[nbs[d]] == cs0[nbs[d]] + OfSpecies(sent[d], Carnivore)
    ensures forall j :: 0 <= j < |cells| && j !in nbs ==> hs[j] == hs0[j] && cs[j] == cs0[j]
    ensures Union(ListResidents(hs, cs)) == Union(ListResidents(hs0, cs0)) + multiset(moved)
    ensures Distinct(Union(ListResidents(hs0, cs0))) && Land(cells) && PureLists(hs, cs)
    ensures SpeciesLists(hs[ci], cs[ci]) && NoDup(all) && multiset(moved) <= multiset(all) && AllMoved(moved)
  {
    var c := cells[ci];
    var animals := c.Animals();
    all := animals;
    flags := Movers(all, fit, us);
    assert forall i :: 0 <= i < |all| ==> flags[i] == (!all[i].hasMoved && all[i].Migrates(us(i), fit));
    ghost var was := MovedFlags(all);
    ListsNoDup(c.herbivores, c.carnivores);
    hs0, cs0 := HerbLists(cells), CarnLists(cells);
    PureOfValid(cells, hs0, cs0);
    PopOfLists(cells, hs0, cs0);
    assert SpeciesLists(hs0[ci], cs0[ci]);
    moved, sent, hs, cs := MoveOut(cells, animals, nbs, fit, us, choice, flags, was, hs0, cs0);
    assert ci !in nbs;
  }

  /** The lists once the movers have left cell ci, the emigrants already counted at cells nbs. */
  lemma SettledLists(hs0: seq<seq<Animal>>, cs0: seq<seq<Animal>>, hs1: seq<seq<Animal>>, cs1: seq<seq<Animal>>, ci: nat,
                     h: seq<Animal>, cl: seq<Animal>, moved: seq<Animal>, nbs: seq<nat>, sent: seq<seq<Animal>>)
    requires |hs0| == |cs0| == |hs1| == |cs1| && ci < |hs1| && ci !in nbs
    requires |sent| == |nbs| && forall d :: 0 <= d < |nbs| ==>
      && nbs[d] < |hs1|
      && hs1[nbs[d]] == hs0[nbs[d]] + OfSpecies(sent[d], Herbivore)
      && cs1[nbs[d]] == cs0[nbs[d]] + OfSpecies(sent[d], Carnivore)
    requires Union(ListResidents(hs1, cs1)) == Union(ListResidents(hs0, cs0)) + multiset(moved)
    requires Distinct(Union(ListResidents(hs0, cs0))) && PureLists(hs1, cs1) && SpeciesLists(h, cl)
    requires multiset(h) + multiset(cl) + multiset(moved) == multiset(hs1[ci]) + multiset(cs1[ci])
    ensures forall d :: 0 <= d < |nbs| ==>
      && nbs[d] < |hs1|
      && hs1[ci := h][nbs[d]] == hs0[nbs[d]] + OfSpecies(sent[d], Herbivore)
      && cs1[ci := cl][nbs[d]] == cs0[nbs[d]] + OfSpecies(sent[d], Carnivore)
    ensures Union(ListResidents(hs1[ci := h], cs1[ci := cl])) == Union(ListResidents(hs0, cs0))
    ensures PureLists(hs1[ci := h], cs1[ci := cl]) && Distinct(Union(ListResidents(hs1[ci := h], cs1[ci := cl])))
  {
    var hs, cs := hs1[ci := h], cs1[ci := cl];
    forall d | 0 <= d < |nbs|
      ensures hs[nbs[d]] == hs0[nbs[d]] + OfSpecies(sent[d], Herbivore)
      ensures cs[nbs[d]] == cs0[nbs[d]] + OfSpecies(sent[d], Carnivore)
    {
      assert nbs[d] != ci;
    }
    ListsTakeOut(hs1, cs1, ci, h, cl, multiset(moved));
    ghost var pop1 := Union(ListResidents(hs1, cs1));
    MinusOfSum(Union(ListResidents(hs, cs)), multiset(moved), pop1);
    MinusOfSum(Union(ListResidents(hs0, cs0)), multiset(moved), pop1);
    PureUpdate(hs1, cs1, ci, h, cl);
  }

  /**
   * The end of migrate(cell) for cell ci: the movers leave it and the animals that remain get
   * their flag cleared. Given the lists after the loop as hs1/cs1, and hs0/cs0 before it, no
   * animal is lost or gained and every cell stays valid.
   */
  method Settle(cells: seq<Cell>, ci: nat, c: Cell, nbs: seq<nat>, moved: seq<Animal>, ghost all: seq<Animal>,
                ghost sent: seq<seq<Animal>>, ghost hs0: seq<seq<Animal>>, ghost cs0: seq<seq<Animal>>,
                ghost hs1: seq<seq<Animal>>, ghost cs1: seq<seq<Animal>>)
    returns (ghost hs: seq<seq<Animal>>, ghost cs: seq<seq<Animal>>)
    requires ci < |cells| && c == cells[ci] && NoDup(cells) && Mirrors(cells, hs1, cs1) && ci !in nbs
    requires |hs0| == |cs0| == |cells|
    requires all == hs1[ci] + cs1[ci] && all == hs0[ci] + cs0[ci]
    requires |sent| == |nbs| && forall d :: 0 <= d < |nbs| ==>
      && nbs[d] < |hs1|
      && hs1[nbs[d]] == hs0[nbs[d]] + OfSpecies(sent[d], Herbivore)
      && cs1[nbs[d]] == cs0[nbs[d]] + OfSpecies(sent[d], Carnivore)
    requires forall j :: 0 <= j < |cells| && j !in nbs ==> hs1[j] == hs0[j] && cs1[j] == cs0[j]
    requires Union(ListResidents(hs1, cs1)) == Union(ListResidents(hs0, cs0)) + multiset(moved)
    requires Distinct(Union(ListResidents(hs0, cs0))) && Land(cells) && PureLists(hs1, cs1)
    requires SpeciesLists(hs1[ci], cs1[ci]) && NoDup(all) && multiset(moved) <= multiset(all) && AllMoved(moved)
    modifies c`herbivores, c`carnivores, all`hasMoved
    ensures Mirrors(cells, hs, cs)
    ensures forall d :: 0 <= d < |nbs| ==>
      && nbs[d] < |hs|
      && hs[nbs[d]] == hs0[nbs[d]] + OfSpecies(sent[d], Herbivore)
      && cs[nbs[d]] == cs0[nbs[d]] + OfSpecies(sent[d], Carnivore)
    ensures Removal(hs[ci], cs[ci], true) == RemoveEach(hs0[ci], cs0[ci], moved)
    ensures forall j :: 0 <= j < |cells| && j != ci && j !in nbs ==> hs[j] == hs0[j] && cs[j] == cs0[j]
    ensures Union(ListResidents(hs, cs)) == Union(ListResidents(hs0, cs0)) && AllValid(cells)
    ensures Unmoved(hs[ci] + cs[ci]) && AllMoved(moved)
  {
    ghost var h, cl := Leave(cells, ci, c, moved, all, hs1, cs1);
    hs, cs := hs1[ci := h], cs1[ci := cl];
    SettledLists(hs0, cs0, hs1, cs1, ci, h, cl, moved, nbs, sent);
    ValidFromLists(cells, hs, cs);
  }

  /**
   * migrate(cell) for cell ci with land neighbours nbs: the movers are appended to their
   * chosen neighbours, taken out of ci, and ci's remaining animals get their flag cleared.
   * The lists are given as copies, hs0/cs0 before and hs/cs after. No animal is lost or
   * gained, and every cell stays valid.
   */
  method Migrate(cells: seq<Cell>, ci: nat, nbs: seq<nat>, fit: FitnessFn, us: nat -> real, choice: nat -> nat)
    returns (moved: seq<Animal>, ghost all: seq<Animal>, ghost flags: seq<bool>, ghost sent: seq<seq<Animal>>,
             ghost hs0: seq<seq<Animal>>, ghost cs0: seq<seq<Animal>>, ghost hs: seq<seq<Animal>>, ghost cs: seq<seq<Animal>>)
    requires ci < |cells| && NoDup(cells) && NoDup(nbs) && AllValid(cells) && Distinct(Pop(cells))
    requires forall d :: 0 <= d < |nbs| ==> nbs[d] < |cells| && nbs[d] != ci
    modifies cells`herbivores, cells`carnivores, cells[ci].Animals()`hasMoved
    ensures hs0 == old(HerbLists(cells)) && cs0 == old(CarnLists(cells)) && Mirrors(cells, hs, cs)
    ensures all == hs0[ci] + cs0[ci] && |flags| == |all|
    ensures forall i :: 0 <= i < |all| ==> flags[i] == old(!all[i].hasMoved && all[i].Migrates(us(i), fit))
    ensures moved == if |nbs| > 0 then Select(all, flags) else []
    ensures |sent| == |nbs| && forall d :: 0 <= d < |nbs| ==> sent[d] == SentTo(all, flags, choice, |nbs|, d)
    ensures forall d :: 0 <= d < |nbs| ==>
      && nbs[d] < |hs|
      && hs[nbs[d]] == hs0[nbs[d]] + OfSpecies(sent[d], Herbivore)
      && cs[nbs[d]] == cs0[nbs[d]] + OfSpecies(sent[d], Carnivore)
    ensures Removal(hs[ci], cs[ci], true) == RemoveEach(hs0[ci], cs0[ci], moved)
    ensures forall j :: 0 <= j < |cells| && j != ci && j !in nbs ==> hs[j] == hs0[j] && cs[j] == cs0[j]
    ensures Union(ListResidents(hs, cs)) == Union(ListResidents(hs0, cs0)) && AllValid(cells)
    ensures Unmoved(hs[ci] + cs[ci]) && AllMoved(moved)
    ensures forall i :: 0 <= i < |all| && !flags[i] ==> all[i] !in moved
  {
    ghost var hs1, cs1;
    moved, all, flags, sent, hs0, cs0, hs1, cs1 := Depart(cells, ci, nbs, fit, us, choice);
    hs, cs := Settle(cells, ci, cells[ci], nbs, moved, all, sent, hs0, cs0, hs1, cs1);
    forall i | 0 <= i < |all| && !flags[i] ensures all[i] !in moved {
      SelectSkips(all, flags, i);
    }
  }
}
