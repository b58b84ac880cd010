/**
 * run_year_cycle and the BioSim object: the six seasons applied cell by cell to the land
 * cells in their order, and the consistency of the island that every season keeps.
 *
 * The land cells are a sequence of Cell objects; ghost copies hs, cs of their herbivore
 * and carnivore lists (Mirrors) carry the reasoning about the whole island.
 */
module YearCycle {
  import opened Wrappers
  import opened Seqs
  import opened Animals
  import opened Cells
  import opened Migration
  import opened BioSims

  // ----- The island's animals, on the copies of the lists -----

  /** Every list holds its own species, and no animal lives in two places or twice in one. */
  ghost predicate Consistent(hs: seq<seq<Animal>>, cs: seq<seq<Animal>>)
  {
    PureLists(hs, cs) && Distinct(Union(ListResidents(hs, cs)))
  }

  /** Every animal living on the island. */
  ghost function Dwellers(hs: seq<seq<Animal>>, cs: seq<seq<Animal>>): set<Animal>
    requires |hs| == |cs|
  {
    set a: Animal | a in Union(ListResidents(hs, cs))
  }

  /** An animal in one of the lists lives on the island. */
  lemma ListedDwells(hs: seq<seq<Animal>>, cs: seq<seq<Animal>>, j: nat, a: Animal)
    requires |hs| == |cs| && j < |hs| && (a in hs[j] || a in cs[j])
    ensures a in Union(ListResidents(hs, cs))
  {
    UnionContains(ListResidents(hs, cs), j);
    assert a in multiset(hs[j]) + multiset(cs[j]);
  }

  /** What is left after taking animals out of a cell still lives on the island. */
  lemma LeftDwell(hs: seq<seq<Animal>>, cs: seq<seq<Animal>>, j: nat, h: seq<Animal>, c: seq<Animal>, m: multiset<Animal>)
    requires |hs| == |cs| && j < |hs| && multiset(h) + multiset(c) + m == multiset(hs[j]) + multiset(cs[j])
    ensures forall a :: a in h + c ==> a in Union(ListResidents(hs, cs))
  {
    forall a | a in h + c ensures a in Union(ListResidents(hs, cs)) {
      assert a in multiset(h) + multiset(c);
      UnionContains(ListResidents(hs, cs), j);
    }
  }

  /** Taking animals out of one cell keeps the island consistent, and they leave the island. */
  lemma {:induction false} AfterTakeOut(hs: seq<seq<Animal>>, cs: seq<seq<Animal>>, j: nat, h: seq<Animal>, c: seq<Animal>,
                                        m: multiset<Animal>)
    requires Consistent(hs, cs) && j < |hs| && SpeciesLists(h, c)
    requires multiset(h) + multiset(c) + m == multiset(hs[j]) + multiset(cs[j])
    ensures Consistent(hs[j := h], cs[j := c])
    ensures Union(ListResidents(hs[j := h], cs[j := c])) + m == Union(ListResidents(hs, cs))
  {
    ListsTakeOut(hs, cs, j, h, c, m);
    SubDistinct(Union(ListResidents(hs[j := h], cs[j := c])), Union(ListResidents(hs, cs)));
    PureUpdate(hs, cs, j, h, c);
  }

  /** Replacing the lists of one cell replaces its residents. */
  lemma ResidentsUpdate(hs: seq<seq<Animal>>, cs: seq<seq<Animal>>, j: nat, h: seq<Animal>, c: seq<Animal>)
    requires |hs| == |cs| && j < |hs|
    ensures ListResidents(hs[j := h], cs[j := c]) == ListResidents(hs, cs)[j := multiset(h) + multiset(c)]
  {
  }

  /** The newborns added to two valid lists are all different. */
  lemma BornDistinct(h: seq<Animal>, c: seq<Animal>, nh: seq<Animal>, nc: seq<Animal>)
    requires SpeciesLists(h + nh, c + nc)
    ensures Distinct(multiset(nh) + multiset(nc))
  {
    SubNoDup(nh, h + nh);
    SubNoDup(nc, c + nc);
    NoDupIsDistinct(nh);
    NoDupIsDistinct(nc);
    forall a | a in multiset(nc) ensures a !in multiset(nh) {
      var k :| 0 <= k < |nc| && nc[k] == a;
      assert (c + nc)[|c| + k] == a;
    }
    DistinctSum(multiset(nh), multiset(nc));
  }

  /** Adding newborns that live nowhere yet to one cell keeps the island consistent. */
  lemma AfterBirths(hs: seq<seq<Animal>>, cs: seq<seq<Animal>>, j: nat, nh: seq<Animal>, nc: seq<Animal>)
    requires Consistent(hs, cs) && j < |hs| && SpeciesLists(hs[j] + nh, cs[j] + nc)
    requires forall a :: a in nh + nc ==> a !in Union(ListResidents(hs, cs))
    ensures Consistent(hs[j := hs[j] + nh], cs[j := cs[j] + nc])
    ensures Union(ListResidents(hs[j := hs[j] + nh], cs[j := cs[j] + nc])) ==
            Union(ListResidents(hs, cs)) + multiset(nh + nc)
  {
    var ms := ListResidents(hs, cs);
    var born := multiset(nh) + multiset(nc);
    ResidentsUpdate(hs, cs, j, hs[j] + nh, cs[j] + nc);
    assert multiset(hs[j] + nh) + multiset(cs[j] + nc) == ms[j] + born;
    UnionGrow(ms, j, born);
    BornDistinct(hs[j], cs[j], nh, nc);
    forall a | a in born ensures a !in Union(ms) {
      assert a in nh + nc;
    }
    DistinctSum(Union(ms), born);
    PureUpdate(hs, cs, j, hs[j] + nh, cs[j] + nc);
  }

  // ----- The seasons of one cell, on the copies of the lists -----

  /** Season 1, feeding: cell ci loses the herbivores that were killed; no other cell changes. */
  method FeedPhase(cells: seq<Cell>, ci: nat, c: Cell, fit: FitnessFn, below: Below, draws: (nat, nat) -> real,
                   ghost hs: seq<seq<Animal>>, ghost cs: seq<seq<Animal>>)
    returns (killed: seq<Animal>, ghost h: seq<Animal>, ghost cl: seq<Animal>)
    requires NoDup(cells) && ci < |cells| && c == cells[ci] && Mirrors(cells, hs, cs) && c.Valid() && c.table.Valid()
    modifies c`fodder, c`herbivores, c`carnivores, c.herbivores`weight, c.carnivores`weight
    ensures Mirrors(cells, hs[ci := h], cs[ci := cl]) && SpeciesLists(h, cl)
    ensures multiset(h) + multiset(cl) + multiset(killed) == multiset(hs[ci]) + multiset(cs[ci])
  {
    ghost var herd, rests, hunts, eaten, fits, weights;
    killed, herd, rests, hunts, eaten, fits, weights := Feeding(c, fit, below, draws);
    h, cl := c.herbivores, c.carnivores;
    forall j | 0 <= j < |cells| && j != ci ensures cells[j].herbivores == hs[j] && cells[j].carnivores == cs[j] {
      assert cells[j] != c;
    }
  }

  /** Procreation as the island sees it: the cell stays valid and gains new animals. */
  method BreedCell(c: Cell, fit: FitnessFn, us: nat -> real, bws: nat -> real, census: Census)
    returns (newHerbs: seq<Animal>, newCarns: seq<Animal>)
    requires c.Valid()
    modifies c`herbivores, c`carnivores, c.herbivores`weight, c.carnivores`weight, census
    ensures c.Valid() && c.herbivores == old(c.herbivores) + newHerbs && c.carnivores == old(c.carnivores) + newCarns
    ensures forall a :: a in newHerbs + newCarns ==> fresh(a)
  {
    newHerbs, newCarns := Procreation(c, fit, us, bws, census);
  }

  /** Season 2, procreation: cell ci gains its newborns, who live nowhere else; no other cell changes. */
  method BreedPhase(cells: seq<Cell>, ci: nat, c: Cell, fit: FitnessFn, us: nat -> real, bws: nat -> real, census: Census,
                    ghost hs: seq<seq<Animal>>, ghost cs: seq<seq<Animal>>)
    returns (newHerbs: seq<Animal>, newCarns: seq<Animal>)
    requires NoDup(cells) && ci < |cells| && c == cells[ci] && Mirrors(cells, hs, cs) && c.Valid()
    modifies c`herbivores, c`carnivores, c.herbivores`weight, c.carnivores`weight, census
    ensures Mirrors(cells, hs[ci := hs[ci] + newHerbs], cs[ci := cs[ci] + newCarns])
    ensures SpeciesLists(hs[ci] + newHerbs, cs[ci] + newCarns)
    ensures forall a :: a in newHerbs + newCarns ==> fresh(a) && a !in Union(ListResidents(hs, cs))
  {
    newHerbs, newCarns := BreedCell(c, fit, us, bws, census);
    forall j | 0 <= j < |cells| && j != ci
      ensures cells[j].herbivores == hs[j] && cells[j].carnivores == cs[j]
    {
      assert cells[j] != c;
    }
    forall a | a in newHerbs + newCarns ensures a !in Union(ListResidents(hs, cs)) {
      if a in Union(ListResidents(hs, cs)) {
        UnionMember(ListResidents(hs, cs), a);
        assert false;
      }
    }
  }

  /** land_cell_neighbors of cell ci: other cells, each named once. */
  predicate Neighbours(n: nat, ci: nat, nbs: seq<nat>)
  {
    NoDup(nbs) && forall d :: 0 <= d < |nbs| ==> nbs[d] < n && nbs[d] != ci
  }

  /** Season 3, migration: the animals only move between cells, and cell ci keeps some of its own. */
  method MovePhase(cells: seq<Cell>, ci: nat, c: Cell, nbs: seq<nat>, fit: FitnessFn, us: nat -> real, choice: nat -> nat,
                   ghost hs: seq<seq<Animal>>, ghost cs: seq<seq<Animal>>)
    returns (moved: seq<Animal>, ghost hs': seq<seq<Animal>>, ghost cs': seq<seq<Animal>>)
    requires NoDup(cells) && Land(cells) && ci < |cells| && c == cells[ci] && Neighbours(|cells|, ci, nbs)
    requires Mirrors(cells, hs, cs) && Consistent(hs, cs)
    modifies cells`herbivores, cells`carnivores, c.Animals()`hasMoved
    ensures Mirrors(cells, hs', cs') && Consistent(hs', cs')
    ensures Union(ListResidents(hs', cs')) == Union(ListResidents(hs, cs))
    ensures multiset(hs'[ci]) <= multiset(hs[ci]) && multiset(cs'[ci]) <= multiset(cs[ci])
    ensures forall j :: 0 <= j < |cells| && j != ci && j !in nbs ==> hs'[j] == hs[j] && cs'[j] == cs[j]
  {
    ValidFromLists(cells, hs, cs);
    PopOfLists(cells, hs, cs);
    assert HerbLists(cells) == hs && CarnLists(cells) == cs;
    ghost var all, flags, sent, hs0, cs0;
    moved, all, flags, sent, hs0, cs0, hs', cs' := Migrate(cells, ci, nbs, fit, us, choice);
    PureOfValid(cells, hs', cs');
    RemoveEachCorrect(hs[ci], cs[ci], moved);
  }

  /** The death season as the island sees it: the cell stays valid, loses the dead and keeps only positive weights. */
  method DeathCell(c: Cell, fit: FitnessFn, us: nat -> real, census: Census) returns (dead: seq<Animal>)
    requires c.Valid()
    modifies c`herbivores, c`carnivores, census`herbivores, census`carnivores
    ensures c.Valid()
    ensures multiset(c.herbivores) + multiset(c.carnivores) + multiset(dead) == old(multiset(c.herbivores) + multiset(c.carnivores))
    ensures forall i :: 0 <= i < |c.Animals()| ==> c.Animals()[i].weight > 0.0
  {
    ghost var flags;
    dead, flags := DeathSeason(c, fit, us, census);
  }

  /** Season 6, death: cell ci loses the animals that died, and every animal left in it has a positive weight. */
  method DeathPhase(cells: seq<Cell>, ci: nat, c: Cell, fit: FitnessFn, us: nat -> real, census: Census,
                    ghost hs: seq<seq<Animal>>, ghost cs: seq<seq<Animal>>)
    returns (dead: seq<Animal>, ghost h: seq<Animal>, ghost cl: seq<Animal>)
    requires NoDup(cells) && ci < |cells| && c == cells[ci] && Mirrors(cells, hs, cs) && c.Valid()
    modifies c`herbivores, c`carnivores, census`herbivores, census`carnivores
    ensures Mirrors(cells, hs[ci := h], cs[ci := cl]) && SpeciesLists(h, cl)
    ensures multiset(h) + multiset(cl) + multiset(dead) == multiset(hs[ci]) + multiset(cs[ci])
    ensures forall i :: 0 <= i < |h + cl| ==> (h + cl)[i].weight > 0.0
  {
    dead := DeathCell(c, fit, us, census);
    h, cl := c.herbivores, c.carnivores;
    assert c.Animals() == h + cl;
    forall j | 0 <= j < |cells| && j != ci ensures cells[j].herbivores == hs[j] && cells[j].carnivores == cs[j] {
      assert cells[j] != c;
    }
  }

  // ----- One cell's year -----

  /**
   * The random draws one cell's year consumes: the shuffle before grazing, the kill draws
   * (hunt(k, j): carnivore k and prey j), the birth draws and birth weights, the migration
   * draws and the choice of neighbour, and the death draws.
   */
  datatype CellDraws = CellDraws(shuffle: Below, hunt: (nat, nat) -> real, birth: nat -> real, birthWeight: nat -> real,
                                 migration: nat -> real, destination: nat -> nat, death: nat -> real)

  /** Season 1 on the whole island: the residents are still consistent, and some of cell ci's herbivores are gone. */
  method FeedStage(cells: seq<Cell>, ci: nat, c: Cell, fit: FitnessFn, d: CellDraws,
                   ghost hs: seq<seq<Animal>>, ghost cs: seq<seq<Animal>>)
    returns (killed: seq<Animal>, ghost hs': seq<seq<Animal>>, ghost cs': seq<seq<Animal>>)
    requires NoDup(cells) && Land(cells) && ci < |cells| && c == cells[ci] && c.table.Valid()
    requires Mirrors(cells, hs, cs) && Consistent(hs, cs)
    modifies c`fodder, c`herbivores, c`carnivores, Dwellers(hs, cs)`weight
    ensures Mirrors(cells, hs', cs') && Consistent(hs', cs')
    ensures Union(ListResidents(hs', cs')) + multiset(killed) == Union(ListResidents(hs, cs))
  {
    ValidFromLists(cells, hs, cs);
    assert c.Valid();
    LeftDwell(hs, cs, ci, hs[ci], cs[ci], multiset{});
    ghost var h, cl;
    killed, h, cl := FeedPhase(cells, ci, c, fit, d.shuffle, d.hunt, hs, cs);
    hs', cs' := hs[ci := h], cs[ci := cl];
    AfterTakeOut(hs, cs, ci, h, cl, multiset(killed));
  }

  /** Season 2 on the whole island: the residents are still consistent, and cell ci's newborns have joined them. */
  method BreedStage(cells: seq<Cell>, ci: nat, c: Cell, fit: FitnessFn, d: CellDraws, census: Census,
                    ghost hs: seq<seq<Animal>>, ghost cs: seq<seq<Animal>>)
    returns (born: seq<Animal>, ghost hs': seq<seq<Animal>>, ghost cs': seq<seq<Animal>>)
    requires NoDup(cells) && Land(cells) && ci < |cells| && c == cells[ci]
    requires Mirrors(cells, hs, cs) && Consistent(hs, cs)
    modifies c`herbivores, c`carnivores, census, Dwellers(hs, cs)`weight
    ensures Mirrors(cells, hs', cs') && Consistent(hs', cs')
    ensures Union(ListResidents(hs', cs')) == Union(ListResidents(hs, cs)) + multiset(born)
    ensures forall a :: a in born ==> fresh(a)
  {
    ValidFromLists(cells, hs, cs);
    assert c.Valid();
    LeftDwell(hs, cs, ci, hs[ci], cs[ci], multiset{});
    var nh, nc := BreedPhase(cells, ci, c, fit, d.birth, d.birthWeight, census, hs, cs);
    hs', cs' := hs[ci := hs[ci] + nh], cs[ci := cs[ci] + nc];
    AfterBirths(hs, cs, ci, nh, nc);
    born := nh + nc;
  }

  /** Seasons 4 to 6 on the whole island: cell ci's residents age, lose weight and some die; the rest stay consistent. */
  method AutumnStage(cells: seq<Cell>, ci: nat, c: Cell, fit: FitnessFn, d: CellDraws, census: Census,
                     ghost hs: seq<seq<Animal>>, ghost cs: seq<seq<Animal>>)
    returns (dead: seq<Animal>, ghost hs': seq<seq<Animal>>, ghost cs': seq<seq<Animal>>)
    requires NoDup(cells) && Land(cells) && ci < |cells| && c == cells[ci]
    requires Mirrors(cells, hs, cs) && Consistent(hs, cs)
    modifies c`herbivores, c`carnivores, census`herbivores, census`carnivores, Dwellers(hs, cs)`age, Dwellers(hs, cs)`weight
    ensures Mirrors(cells, hs', cs') && Consistent(hs', cs')
    ensures Union(ListResidents(hs', cs')) + multiset(dead) == Union(ListResidents(hs, cs))
    ensures forall i :: 0 <= i < |hs'[ci] + cs'[ci]| ==> (hs'[ci] + cs'[ci])[i].weight > 0.0
  {
    ValidFromLists(cells, hs, cs);
    assert c.Valid();
    LeftDwell(hs, cs, ci, hs[ci], cs[ci], multiset{});
    AgingSeason(c);
    WeightLossSeason(c);
    ghost var h, cl;
    dead, h, cl := DeathPhase(cells, ci, c, fit, d.death, census, hs, cs);
    hs', cs' := hs[ci := h], cs[ci := cl];
    AfterTakeOut(hs, cs, ci, h, cl, multiset(dead));
  }

  /** Whoever is counted in u, which holds no more than u0 and the newborns, was counted in u0 or is a newborn. */
  lemma FromBefore(u: multiset<Animal>, u0: multiset<Animal>, born: seq<Animal>)
    requires u <= u0 + multiset(born)
    ensures forall a :: a in u ==> a in u0 || a in born
  {
  }

  /** Spring's count followed by autumn's: the killed and the dead leave, the newborns join. */
  lemma Tally(u0: multiset<Animal>, u1: multiset<Animal>, u2: multiset<Animal>,
              killed: multiset<Animal>, born: multiset<Animal>, dead: multiset<Animal>)
    requires u1 + killed == u0 + born && u2 + dead == u1
    ensures u2 + killed + dead == u0 + born
    ensures u1 <= u0 + born
  {
  }

  /**
   * Feeding and procreation in cell ci: the island stays consistent, loses exactly the killed
   * and gains exactly the newborns.
   */
  method Spring(cells: seq<Cell>, ci: nat, c: Cell, fit: FitnessFn, d: CellDraws, census: Census,
                ghost hs: seq<seq<Animal>>, ghost cs: seq<seq<Animal>>)
    returns (killed: seq<Animal>, born: seq<Animal>, ghost hs': seq<seq<Animal>>, ghost cs': seq<seq<Animal>>)
    requires NoDup(cells) && Land(cells) && ci < |cells| && c == cells[ci] && c.table.Valid()
    requires Mirrors(cells, hs, cs) && Consistent(hs, cs)
    modifies c`fodder, c`herbivores, c`carnivores, census, Dwellers(hs, cs)`weight
    ensures Mirrors(cells, hs', cs') && Consistent(hs', cs')
    ensures Union(ListResidents(hs', cs')) + multiset(killed) == Union(ListResidents(hs, cs)) + multiset(born)
    ensures forall a :: a in born ==> fresh(a)
  {
    ghost var hs1, cs1;
    killed, hs1, cs1 := FeedStage(cells, ci, c, fit, d, hs, cs);
    assert Dwellers(hs1, cs1) <= Dwellers(hs, cs);
    born, hs', cs' := BreedStage(cells, ci, c, fit, d, census, hs1, cs1);
  }

  /**
   * Migration, aging, weight loss and death in cell ci: the island stays consistent and loses
   * exactly the dead, and every animal left in cell ci has a positive weight.
   */
  method Autumn(cells: seq<Cell>, ci: nat, c: Cell, nbs: seq<nat>, fit: FitnessFn, d: CellDraws, census: Census,
                ghost hs: seq<seq<Animal>>, ghost cs: seq<seq<Animal>>)
    returns (dead: seq<Animal>, ghost hs': seq<seq<Animal>>, ghost cs': seq<seq<Animal>>)
    requires NoDup(cells) && Land(cells) && ci < |cells| && c == cells[ci] && Neighbours(|cells|, ci, nbs)
    requires Mirrors(cells, hs, cs) && Consistent(hs, cs)
    modifies cells`herbivores, cells`carnivores, census`herbivores, census`carnivores,
             Dwellers(hs, cs)`age, Dwellers(hs, cs)`weight, Dwellers(hs, cs)`hasMoved
    ensures Mirrors(cells, hs', cs') && Consistent(hs', cs')
    ensures Union(ListResidents(hs', cs')) + multiset(dead) == Union(ListResidents(hs, cs))
    ensures forall i :: 0 <= i < |hs'[ci] + cs'[ci]| ==> (hs'[ci] + cs'[ci])[i].weight > 0.0
  {
    LeftDwell(hs, cs, ci, hs[ci], cs[ci], multiset{});
    ghost var moved, hs1, cs1;
    moved, hs1, cs1 := MovePhase(cells, ci, c, nbs, fit, d.migration, d.destination, hs, cs);
    assert Dwellers(hs1, cs1) == Dwellers(hs, cs);
    dead, hs', cs' := AutumnStage(cells, ci, c, fit, d, census, hs1, cs1);
  }

  /**
   * One land cell's turn in run_year_cycle: feeding, procreation, migration, aging, weight loss and death.
   * The island stays consistent; it loses exactly the killed and the dead and gains exactly the newborns,
   * so whoever lives on it afterwards lived there before or was born in this turn; and every animal left
   * in cell ci has a positive weight.
   */
  method CellYear(cells: seq<Cell>, ci: nat, c: Cell, nbs: seq<nat>, fit: FitnessFn, d: CellDraws, census: Census,
                  ghost hs: seq<seq<Animal>>, ghost cs: seq<seq<Animal>>)
    returns (killed: seq<Animal>, born: seq<Animal>, dead: seq<Animal>, ghost hs': seq<seq<Animal>>,
             ghost cs': seq<seq<Animal>>)
    requires NoDup(cells) && Land(cells) && ci < |cells| && c == cells[ci] && Neighbours(|cells|, ci, nbs) && c.table.Valid()
    requires Mirrors(cells, hs, cs) && Consistent(hs, cs)
    modifies cells, census, Dwellers(hs, cs)
    ensures Mirrors(cells, hs', cs') && Consistent(hs', cs')
    ensures Union(ListResidents(hs', cs')) + multiset(killed) + multiset(dead) ==
            Union(ListResidents(hs, cs)) + multiset(born)
    ensures forall a :: a in born ==> fresh(a)
    ensures forall a :: a in Union(ListResidents(hs', cs')) ==> a in Union(ListResidents(hs, cs)) || fresh(a)
    ensures forall i :: 0 <= i < |hs'[ci] + cs'[ci]| ==> (hs'[ci] + cs'[ci])[i].weight > 0.0
  {
    ghost var u0 := Union(ListResidents(hs, cs));
    ghost var hs1, cs1;
    killed, born, hs1, cs1 := Spring(cells, ci, c, fit, d, census, hs, cs);
    ghost var u1 := Union(ListResidents(hs1, cs1));
    assert u1 <= u0 + multiset(born);
    FromBefore(u1, u0, born);
    dead, hs', cs' := Autumn(cells, ci, c, nbs, fit, d, census, hs1, cs1);
    Tally(u0, u1, Union(ListResidents(hs', cs')), multiset(killed), multiset(born), multiset(dead));
  }
}
