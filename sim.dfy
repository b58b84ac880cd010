/**
 * The BioSim object: the island, its land cells in the order the year cycle visits them,
 * the species counters and the year counter; run_year_cycle and add_population.
 */
module Simulation {
  import opened Wrappers
  import opened Seqs
  import opened Animals
  import opened Cells
  import opened IslandMap
  import opened Migration
  import opened YearCycle

  /** No animal lives on an island whose cells are all empty. */
  lemma EmptyConsistent(hs: seq<seq<Animal>>, cs: seq<seq<Animal>>)
    requires |hs| == |cs|
    requires forall j :: 0 <= j < |hs| ==> hs[j] == [] && cs[j] == []
    ensures Consistent(hs, cs)
  {
    var ms := ListResidents(hs, cs);
    forall a | a in Union(ms) ensures false {
      UnionMember(ms, a);
    }
  }

  /** The loop of run_year_cycle over the land cells, each taking its turn on the island as it then is. */
  method VisitCells(cells: seq<Cell>, nbrs: seq<seq<nat>>, fit: FitnessFn, draws: nat -> CellDraws, census: Census,
                    ghost hs: seq<seq<Animal>>, ghost cs: seq<seq<Animal>>, ghost animals: set<Animal>)
    returns (ghost hs': seq<seq<Animal>>, ghost cs': seq<seq<Animal>>)
    requires NoDup(cells) && Land(cells) && |nbrs| == |cells|
    requires forall i :: 0 <= i < |cells| ==> Neighbours(|cells|, i, nbrs[i]) && cells[i].table.Valid()
    requires Mirrors(cells, hs, cs) && Consistent(hs, cs) && animals == Dwellers(hs, cs)
    modifies cells, census, animals
    ensures Mirrors(cells, hs', cs') && Consistent(hs', cs')
    ensures forall a :: a in Union(ListResidents(hs', cs')) ==> a in Union(ListResidents(hs, cs)) || fresh(a)
  {
    hs', cs' := hs, cs;
    var i := 0;
    while i < |cells|
      invariant 0 <= i <= |cells|
      invariant Mirrors(cells, hs', cs') && Consistent(hs', cs')
      invariant forall a :: a in Union(ListResidents(hs', cs')) ==> a in Union(ListResidents(hs, cs)) || fresh(a)
    {
      var killed, born, dead;
      killed, born, dead, hs', cs' := CellYear(cells, i, cells[i], nbrs[i], fit, draws(i), census, hs', cs');
      i := i + 1;
    }
  }

  // ----- add_population -----

  /** One animal of a population record: {"species": ..., "age": ..., "weight": ...}. */
  datatype AnimalRecord = AnimalRecord(species: string, age: int, weight: real)

  /** One entry of the population list: {"loc": (row, col), "pop": [...]}. */
  datatype LocRecord = LocRecord(loc: Coord, pop: seq<AnimalRecord>)

  /** The argument of add_population: a list of entries, or a value of any other type. */
  datatype PopulationArg = PopList(records: seq<LocRecord>) | NotAList

  /** The island_map argument of the constructor: None, a string, or a value of any other type. */
  datatype MapArg = NoMap | MapStr(text: string) | NotAString

  /** The map an island is built from when none is given: one Lowland cell inside water. */
  const DefaultMap: string := "WWW\nWLW\nWWW"

  /** The map string the constructor builds its island from. */
  function MapText(islandMap: MapArg): string
    requires !islandMap.NotAString?
  {
    if islandMap.NoMap? then DefaultMap else islandMap.text
  }

  /** The errors raised while setting up a simulation. */
  datatype SimError =
    | PopNotAList                   // ValueError 'Pop list needs to be a list of dicts! ...'
    | MapNotAString                 // ValueError 'Map string needs to be of type str!'
    | UnknownLocation(loc: Coord)   // KeyError: no cell at loc
    | WaterLocation(loc: Coord)     // AttributeError: a Water cell has no add_animals
    | BadMap(error: ConfigError)    // raised by Island(map_str)

  /** The species a record names: "Herbivore" is a herbivore, any other name a carnivore. */
  function SpeciesNamed(name: string): Species
  {
    if name == "Herbivore" then Herbivore else Carnivore
  }

  /** The number of records of a population naming species sp. */
  function NumNamed(pop: seq<AnimalRecord>, sp: Species): (n: nat)
    ensures n <= |pop|
  {
    if |pop| == 0 then 0
    else NumNamed(pop[..|pop| - 1], sp) + (if SpeciesNamed(pop[|pop| - 1].species) == sp then 1 else 0)
  }

  /** The animal from_dict builds from a record: the record's species, age and weight, and default parameters. */
  ghost predicate Built(a: Animal, r: AnimalRecord)
    reads a
  {
    a.species == SpeciesNamed(r.species) && a.p == DefaultParams(a.species) &&
    a.age == r.age && a.weight == r.weight && !a.hasMoved
  }

  /** The animals of a population, built record by record; each raises its species' counter by one. */
  method BuildAnimals(pop: seq<AnimalRecord>, census: Census, ghost present: multiset<Animal>) returns (animals: seq<Animal>)
    modifies census`herbivores, census`carnivores
    ensures |animals| == |pop| && NoDup(animals)
    ensures forall t :: 0 <= t < |pop| ==> fresh(animals[t]) && Built(animals[t], pop[t])
    ensures forall t :: 0 <= t < |animals| ==> animals[t] !in present
    ensures forall sp :: census.Count(sp) == old(census.Count(sp)) + NumNamed(pop, sp)
  {
    animals := [];
    var t := 0;
    while t < |pop|
      invariant 0 <= t <= |pop| && |animals| == t && NoDup(animals)
      invariant forall u :: 0 <= u < t ==> fresh(animals[u]) && Built(animals[u], pop[u])
      invariant forall a :: a in animals ==> a !in present
      invariant forall sp :: census.Count(sp) == old(census.Count(sp)) + NumNamed(pop[..t], sp)
    {
      var r := pop[t];
      var sp := SpeciesNamed(r.species);
      var a := new Animal(sp, DefaultParams(sp), Some(r.weight), 0.0, r.age, census);
      NoDupAppend(animals, [a]);
      animals := animals + [a];
      assert pop[..t + 1][..t] == pop[..t];
      t := t + 1;
    }
    assert pop[..t] == pop;
  }

  /** Some of a pool of newcomers, none of whom is counted in m, are not in a list that m counts. */
  lemma OutsideOf<T>(h: seq<T>, n: seq<T>, pool: seq<T>, m: multiset<T>)
    requires multiset(h) <= m && multiset(n) <= multiset(pool)
    requires forall a :: a in pool ==> a !in m
    ensures forall i :: 0 <= i < |n| ==> n[i] !in h
  {
    forall i | 0 <= i < |n| ensures n[i] !in h {
      assert n[i] in multiset(pool);
      assert n[i] !in multiset(h);
    }
  }

  /** New animals that live nowhere yet, added to cell j, keep the island consistent. */
  lemma Arrivals(hs: seq<seq<Animal>>, cs: seq<seq<Animal>>, j: nat, animals: seq<Animal>)
    requires Consistent(hs, cs) && j < |hs| && NoDup(animals)
    requires forall a :: a in animals ==> a !in Union(ListResidents(hs, cs))
    ensures Consistent(hs[j := hs[j] + OfSpecies(animals, Herbivore)], cs[j := cs[j] + OfSpecies(animals, Carnivore)])
  {
    var nh, nc := OfSpecies(animals, Herbivore), OfSpecies(animals, Carnivore);
    var ms := ListResidents(hs, cs);
    DistinctLists(hs, cs, j);
    UnionContains(ms, j);
    SubNoDup(nh, animals);
    SubNoDup(nc, animals);
    OutsideOf(hs[j], nh, animals, Union(ms));
    OutsideOf(cs[j], nc, animals, Union(ms));
    NoDupAppend(hs[j], nh);
    NoDupAppend(cs[j], nc);
    forall a | a in nh + nc ensures a !in Union(ms) {
      assert a in multiset(animals);
    }
    AfterBirths(hs, cs, j, nh, nc);
  }

  /** add_animals on the cell at position j of the land cells, the copies following. */
  method Welcome(cells: seq<Cell>, ghost j: nat, cell: Cell, animals: seq<Animal>, ghost hs: seq<seq<Animal>>, ghost cs: seq<seq<Animal>>,
                 ghost present: multiset<Animal>)
    returns (ghost hs': seq<seq<Animal>>, ghost cs': seq<seq<Animal>>, ghost present': multiset<Animal>)
    requires NoDup(cells) && j < |cells| && cell == cells[j] && Mirrors(cells, hs, cs) && Kept(hs, cs, present) && NoDup(animals)
    requires forall v :: 0 <= v < |animals| ==> animals[v] !in present
    modifies cell`herbivores, cell`carnivores
    ensures hs' == hs[j := hs[j] + OfSpecies(animals, Herbivore)] && cs' == cs[j := cs[j] + OfSpecies(animals, Carnivore)]
    ensures Mirrors(cells, hs', cs') && Kept(hs', cs', present')
  {
    assert ConsistentAt(hs, cs, present, |hs|);
    assert forall a :: a in animals ==> a !in present;
    cell.AddAnimals(animals);
    hs', cs' := hs[j := cell.herbivores], cs[j := cell.carnivores];
    forall i | 0 <= i < |cells| && i != j ensures cells[i].herbivores == hs'[i] && cells[i].carnivores == cs'[i] {
      assert cells[i] != cell;
    }
    Arrivals(hs, cs, j, animals);
    present' := Union(ListResidents(hs', cs'));
  }

  /** The number of animals of species sp that a list of population entries names. */
  function NumAll(records: seq<LocRecord>, sp: Species): nat
  {
    if |records| == 0 then 0 else NumAll(records[..|records| - 1], sp) + NumNamed(records[|records| - 1].pop, sp)
  }

  /** Every record builds an animal of one of the two species. */
  lemma {:induction false} NumNamedSplit(pop: seq<AnimalRecord>)
    ensures NumNamed(pop, Herbivore) + NumNamed(pop, Carnivore) == |pop|
  {
    if |pop| > 0 {
      NumNamedSplit(pop[..|pop| - 1]);
    }
  }

  /** The position of the first entry whose location is not a land key, or |records| when there is none. */
  function FirstStray(records: seq<LocRecord>, land: set<Coord>): (n: nat)
    ensures n <= |records|
    ensures forall t :: 0 <= t < n ==> records[t].loc in land
    ensures n < |records| ==> records[n].loc !in land
  {
    if |records| == 0 || records[0].loc !in land then 0 else 1 + FirstStray(records[1..], land)
  }

  /**
   * The error of an entry whose location is not a land key: a key of the map that is water, whose cell
   * has no add_animals, or a key the island does not have.
   */
  function StrayError(loc: Coord, known: set<Coord>): SimError
  {
    if loc in known then WaterLocation(loc) else UnknownLocation(loc)
  }

  /**
   * What add_population makes of the constructor's result: a non-list is refused; a list succeeds exactly
   * when every entry names a land key, and otherwise fails with the first stray entry's error.
   */
  ghost predicate PopulationOutcome(res: Result<BioSim, SimError>, iniPop: PopulationArg, land: set<Coord>, known: set<Coord>)
  {
    && (iniPop.NotAList? ==> res == Err(PopNotAList))
    && (iniPop.PopList? ==>
          var records, n := iniPop.records, FirstStray(iniPop.records, land);
          && (res.Ok? <==> n == |records|)
          && (n < |records| ==> res == Err(StrayError(records[n].loc, known))))
  }

  /**
   * The animals of species sp that the first |groups| entries bring to location k, in the order they
   * arrive; groups[t] are the animals built for entry t.
   */
  function Landed(records: seq<LocRecord>, groups: seq<seq<Animal>>, k: Coord, sp: Species): (r: seq<Animal>)
    requires |groups| <= |records|
    ensures forall i :: 0 <= i < |r| ==> r[i].species == sp
  {
    if |groups| == 0 then []
    else
      var t := |groups| - 1;
      Landed(records, groups[..t], k, sp) + (if records[t].loc == k then OfSpecies(groups[t], sp) else [])
  }

  /** Adding the animals of one more entry appends them to its location only. */
  lemma LandedStep(records: seq<LocRecord>, groups: seq<seq<Animal>>, g: seq<Animal>, k: Coord, sp: Species)
    requires |groups| < |records|
    ensures Landed(records, groups + [g], k, sp) ==
      Landed(records, groups, k, sp) + (if records[|groups|].loc == k then OfSpecies(g, sp) else [])
  {
    assert (groups + [g])[..|groups|] == groups;
  }

  /** One cell's list after an entry's animals of species sp arrived; here says whether they came to this cell. */
  lemma LandedAt(h0: seq<Animal>, h1: seq<Animal>, k: Coord, here: bool,
                 records: seq<LocRecord>, groups: seq<seq<Animal>>, g: seq<Animal>, sp: Species)
    requires |groups| < |records| && here == (records[|groups|].loc == k)
    requires h1 == h0 + Landed(records, groups, k, sp)
    ensures (if here then h1 + OfSpecies(g, sp) else h1) == h0 + Landed(records, groups + [g], k, sp)
  {
    LandedStep(records, groups, g, k, sp);
  }

  /** The lists hs1 of one species after an entry's animals of that species joined the cell at position j. */
  lemma LandedAfter(hs0: seq<seq<Animal>>, hs1: seq<seq<Animal>>, order: seq<Coord>, j: nat,
                    records: seq<LocRecord>, groups: seq<seq<Animal>>, g: seq<Animal>, sp: Species)
    requires |hs0| == |hs1| == |order| && j < |order| && NoDup(order) && |groups| < |records|
    requires order[j] == records[|groups|].loc
    requires forall i :: 0 <= i < |order| ==> hs1[i] == hs0[i] + Landed(records, groups, order[i], sp)
    ensures forall i :: 0 <= i < |order| ==>
      hs1[j := hs1[j] + OfSpecies(g, sp)][i] == hs0[i] + Landed(records, groups + [g], order[i], sp)
  {
    forall i | 0 <= i < |order|
      ensures hs1[j := hs1[j] + OfSpecies(g, sp)][i] == hs0[i] + Landed(records, groups + [g], order[i], sp)
    {
      LandedAt(hs0[i], hs1[i], order[i], i == j, records, groups, g, sp);
    }
  }

  /** The animals of entry |groups| join the cell at position j, whose key is the entry's location. */
  method Settle(cells: seq<Cell>, order: seq<Coord>, ghost j: nat, cell: Cell, ghost records: seq<LocRecord>,
                ghost groups: seq<seq<Animal>>, animals: seq<Animal>, ghost hs: seq<seq<Animal>>, ghost cs: seq<seq<Animal>>,
                ghost hs1: seq<seq<Animal>>, ghost cs1: seq<seq<Animal>>, ghost present: multiset<Animal>,
                ghost pop: seq<AnimalRecord>, census: Census)
    returns (ghost hs2: seq<seq<Animal>>, ghost cs2: seq<seq<Animal>>, ghost present': multiset<Animal>)
    requires NoDup(cells) && |order| == |cells| == |hs| == |cs| && NoDup(order) && j < |cells| && cell == cells[j]
    requires |animals| == |pop| && forall v :: 0 <= v < |animals| ==> Built(animals[v], pop[v])
    requires |groups| < |records| && order[j] == records[|groups|].loc
    requires Mirrors(cells, hs1, cs1) && Kept(hs1, cs1, present) && NoDup(animals)
    requires forall v :: 0 <= v < |animals| ==> animals[v] !in present
    requires forall i :: 0 <= i < |cells| ==>
      hs1[i] == hs[i] + Landed(records, groups, order[i], Herbivore) &&
      cs1[i] == cs[i] + Landed(records, groups, order[i], Carnivore)
    modifies cell`herbivores, cell`carnivores
    ensures Mirrors(cells, hs2, cs2) && Kept(hs2, cs2, present')
    ensures forall i :: 0 <= i < |cells| ==>
      hs2[i] == hs[i] + Landed(records, groups + [animals], order[i], Herbivore) &&
      cs2[i] == cs[i] + Landed(records, groups + [animals], order[i], Carnivore)
    ensures forall v :: 0 <= v < |animals| ==> Built(animals[v], pop[v])
    ensures forall sp :: census.Count(sp) == old(census.Count(sp))
  {
    LandedAfter(hs, hs1, order, j, records, groups, animals, Herbivore);
    LandedAfter(cs, cs1, order, j, records, groups, animals, Carnivore);
    hs2, cs2, present' := Welcome(cells, j, cell, animals, hs1, cs1, present);
  }

  /** One more entry's animals counted once more. */
  lemma NumAllStep(records: seq<LocRecord>, t: nat)
    requires t < |records|
    ensures forall sp :: NumAll(records[..t + 1], sp) == NumAll(records[..t], sp) + NumNamed(records[t].pop, sp)
  {
    assert records[..t + 1][..t] == records[..t];
  }

  /**
   * The land cells are distinct and pen holds them; order are their keys, distinct, and land maps each
   * key to its cell; every key of land is found in order. n is the number of land cells.
   */
  ghost predicate LayoutAt(cells: seq<Cell>, pen: set<Cell>, order: seq<Coord>, land: map<Coord, Cell>, n: nat)
  {
    && NoDup(cells) && |order| == |cells| && NoDup(order)
    && (forall i :: 0 <= i < |cells| ==> cells[i] in pen)
    && (forall i :: 0 <= i < |order| ==> order[i] in land && land[order[i]] == cells[i])
    && (forall k :: k in land ==> IndexOf(order, k) < |order|)
  }

  /** LayoutAt, in a form that is taken apart only where the number of land cells is named. */
  ghost predicate Layout(cells: seq<Cell>, pen: set<Cell>, order: seq<Coord>, land: map<Coord, Cell>)
  {
    forall n: nat :: n == |cells| ==> LayoutAt(cells, pen, order, land, n)
  }

  /** The island is consistent and present are all its animals, for lists of length n. */
  ghost predicate ConsistentAt(hs: seq<seq<Animal>>, cs: seq<seq<Animal>>, present: multiset<Animal>, n: nat)
  {
    Consistent(hs, cs) && Union(ListResidents(hs, cs)) == present
  }

  /**
   * ConsistentAt, in a form that is taken apart only where the length of hs is named: the loop of
   * add_population carries it from turn to turn without reasoning about it.
   */
  ghost predicate Kept(hs: seq<seq<Animal>>, cs: seq<seq<Animal>>, present: multiset<Animal>)
  {
    forall n: nat :: n == |hs| ==> ConsistentAt(hs, cs, present, n)
  }

  /**
   * The second half of one turn of the loop of add_population: entry t's animals, already built, join the
   * land cell at the entry's location.
   */
  method PlaceEntry(cells: seq<Cell>, ghost pen: set<Cell>, order: seq<Coord>, land: map<Coord, Cell>, records: seq<LocRecord>, t: nat,
                    animals: seq<Animal>, census: Census, ghost hs: seq<seq<Animal>>, ghost cs: seq<seq<Animal>>,
                    ghost hs1: seq<seq<Animal>>, ghost cs1: seq<seq<Animal>>, ghost present: multiset<Animal>,
                    ghost groups: seq<seq<Animal>>)
    returns (ghost hs2: seq<seq<Animal>>, ghost cs2: seq<seq<Animal>>, ghost present': multiset<Animal>)
    requires |order| == |cells| == |hs| == |cs| && Layout(cells, pen, order, land)
    requires t < |records| && |groups| == t && t <= FirstStray(records, land.Keys) && records[t].loc in land
    requires Mirrors(cells, hs1, cs1) && Kept(hs1, cs1, present)
    requires forall i :: 0 <= i < |cells| ==>
      hs1[i] == hs[i] + Landed(records, groups, order[i], Herbivore) &&
      cs1[i] == cs[i] + Landed(records, groups, order[i], Carnivore)
    requires |animals| == |records[t].pop| && NoDup(animals)
    requires forall v :: 0 <= v < |animals| ==> Built(animals[v], records[t].pop[v])
    requires forall v :: 0 <= v < |animals| ==> animals[v] !in present
    modifies pen`herbivores, pen`carnivores
    ensures Mirrors(cells, hs2, cs2) && Kept(hs2, cs2, present')
    ensures t + 1 <= FirstStray(records, land.Keys)
    ensures forall i :: 0 <= i < |cells| ==>
      hs2[i] == hs[i] + Landed(records, groups + [animals], order[i], Herbivore) &&
      cs2[i] == cs[i] + Landed(records, groups + [animals], order[i], Carnivore)
    ensures forall v :: 0 <= v < |animals| ==> Built(animals[v], records[t].pop[v])
    ensures forall sp :: census.Count(sp) == old(census.Count(sp))
  {
    var r := records[t];
    var cell := land[r.loc];
    assert LayoutAt(cells, pen, order, land, |cells|);
    ghost var j := IndexOf(order, r.loc);
    hs2, cs2, present' := Settle(cells, order, j, cell, records, groups, animals, hs, cs, hs1, cs1, present, r.pop, census);
  }

  /**
   * One turn of the loop of add_population for an entry t whose location is a land cell: its animals are
   * built, counted and added to that cell; groups' is groups with the new animals appended.
   */
  method AddEntry(cells: seq<Cell>, ghost pen: set<Cell>, order: seq<Coord>, land: map<Coord, Cell>, records: seq<LocRecord>, t: nat,
                  census: Census, ghost hs: seq<seq<Animal>>, ghost cs: seq<seq<Animal>>,
                  ghost hs1: seq<seq<Animal>>, ghost cs1: seq<seq<Animal>>, ghost present: multiset<Animal>,
                  ghost groups: seq<seq<Animal>>)
    returns (ghost groups': seq<seq<Animal>>, ghost hs2: seq<seq<Animal>>, ghost cs2: seq<seq<Animal>>,
             ghost present': multiset<Animal>)
    requires |order| == |cells| == |hs| == |cs| && Layout(cells, pen, order, land)
    requires t < |records| && |groups| == t && t <= FirstStray(records, land.Keys) && records[t].loc in land
    requires Mirrors(cells, hs1, cs1) && Kept(hs1, cs1, present)
    requires forall i :: 0 <= i < |cells| ==>
      hs1[i] == hs[i] + Landed(records, groups, order[i], Herbivore) &&
      cs1[i] == cs[i] + Landed(records, groups, order[i], Carnivore)
    requires forall u :: 0 <= u < t ==> |groups[u]| == |records[u].pop|
    requires forall u, v :: 0 <= u < t && 0 <= v < |groups[u]| ==> Built(groups[u][v], records[u].pop[v])
    modifies pen`herbivores, pen`carnivores, census`herbivores, census`carnivores
    ensures |groups'| == t + 1 && t + 1 <= FirstStray(records, land.Keys)
    ensures Mirrors(cells, hs2, cs2) && Kept(hs2, cs2, present')
    ensures forall i :: 0 <= i < |cells| ==>
      hs2[i] == hs[i] + Landed(records, groups', order[i], Herbivore) &&
      cs2[i] == cs[i] + Landed(records, groups', order[i], Carnivore)
    ensures forall u :: 0 <= u < t + 1 ==> |groups'[u]| == |records[u].pop|
    ensures forall u, v :: 0 <= u < t + 1 && 0 <= v < |groups'[u]| ==> Built(groups'[u][v], records[u].pop[v])
    ensures forall u :: 0 <= u < t ==> groups'[u] == groups[u]
    ensures forall v :: 0 <= v < |groups'[t]| ==> fresh(groups'[t][v])
    ensures forall sp :: census.Count(sp) == old(census.Count(sp)) + NumNamed(records[t].pop, sp)
  {
    var animals := BuildAnimals(records[t].pop, census, present);
    hs2, cs2, present' := PlaceEntry(cells, pen, order, land, records, t, animals, census, hs, cs, hs1, cs1, present, groups);
    groups' := groups + [animals];
  }

  /**
   * One turn of the loop of add_population for an entry t whose location is not a land cell: its
   * animals are built and counted, and then the loop stops.
   */
  method StrayEntry(records: seq<LocRecord>, t: nat, census: Census, ghost groups: seq<seq<Animal>>)
    returns (ghost groups': seq<seq<Animal>>)
    requires t < |records| && |groups| == t
    requires forall u :: 0 <= u < t ==> |groups[u]| == |records[u].pop|
    requires forall u, v :: 0 <= u < t && 0 <= v < |groups[u]| ==> Built(groups[u][v], records[u].pop[v])
    modifies census`herbivores, census`carnivores
    ensures |groups'| == t + 1 && groups'[..t] == groups
    ensures forall u :: 0 <= u < t + 1 ==> |groups'[u]| == |records[u].pop|
    ensures forall u, v :: 0 <= u < t + 1 && 0 <= v < |groups'[u]| ==> Built(groups'[u][v], records[u].pop[v])
    ensures forall v :: 0 <= v < |groups'[t]| ==> fresh(groups'[t][v])
    ensures forall sp :: census.Count(sp) == old(census.Count(sp)) + NumNamed(records[t].pop, sp)
  {
    var animals := BuildAnimals(records[t].pop, census, multiset{});
    groups' := groups + [animals];
    assert groups'[..t] == groups;
  }

  /**
   * The turns of the loop of add_population up to the first entry whose location is not a land cell.
   * cells are the land cells, order their keys and land the map from key to cell.
   */
  method PlaceAll(cells: seq<Cell>, ghost pen: set<Cell>, order: seq<Coord>, land: map<Coord, Cell>,
                  records: seq<LocRecord>, census: Census, ghost hs: seq<seq<Animal>>, ghost cs: seq<seq<Animal>>,
                  ghost present: multiset<Animal>)
    returns (t: nat, ghost groups: seq<seq<Animal>>, ghost hs': seq<seq<Animal>>, ghost cs': seq<seq<Animal>>,
             ghost present': multiset<Animal>)
    requires |order| == |cells| && Layout(cells, pen, order, land)
    requires Mirrors(cells, hs, cs) && Kept(hs, cs, present)
    modifies pen`herbivores, pen`carnivores, census`herbivores, census`carnivores
    ensures t == |groups| == FirstStray(records, land.Keys)
    ensures Mirrors(cells, hs', cs') && Kept(hs', cs', present')
    ensures forall i :: 0 <= i < |cells| ==>
      hs'[i] == hs[i] + Landed(records, groups, order[i], Herbivore) &&
      cs'[i] == cs[i] + Landed(records, groups, order[i], Carnivore)
    ensures forall u :: 0 <= u < |groups| ==> |groups[u]| == |records[u].pop|
    ensures forall u, v :: 0 <= u < |groups| && 0 <= v < |groups[u]| ==> fresh(groups[u][v])
    ensures forall u, v :: 0 <= u < |groups| && 0 <= v < |groups[u]| ==> Built(groups[u][v], records[u].pop[v])
    ensures forall sp :: census.Count(sp) == old(census.Count(sp)) + NumAll(records[..|groups|], sp)
  {
    groups := [];
    hs', cs', present' := hs, cs, present;
    t := 0;
    while t < |records| && records[t].loc in land
      invariant 0 <= t <= |records| && |groups| == t && t <= FirstStray(records, land.Keys)
      invariant Mirrors(cells, hs', cs') && Kept(hs', cs', present')
      invariant forall i :: 0 <= i < |cells| ==>
        hs'[i] == hs[i] + Landed(records, groups, order[i], Herbivore) &&
        cs'[i] == cs[i] + Landed(records, groups, order[i], Carnivore)
      invariant forall u :: 0 <= u < t ==> |groups[u]| == |records[u].pop|
      invariant forall u, v :: 0 <= u < t && 0 <= v < |groups[u]| ==> fresh(groups[u][v])
      invariant forall u, v :: 0 <= u < t && 0 <= v < |groups[u]| ==> Built(groups[u][v], records[u].pop[v])
      invariant forall sp :: census.Count(sp) == old(census.Count(sp)) + NumAll(records[..t], sp)
    {
      NumAllStep(records, t);
      ghost var before := groups;
      groups, hs', cs', present' := AddEntry(cells, pen, order, land, records, t, census, hs, cs, hs', cs', present', groups);
      forall u, v | 0 <= u < t + 1 && 0 <= v < |groups[u]| ensures fresh(groups[u][v]) {
        if u < t {
          assert groups[u] == before[u];
        }
      }
      t := t + 1;
    }
  }

  /**
   * The loop of add_population over the entries: the entries up to the first stray one are placed; that
   * one's animals are built and counted, and its location is reported. known are all the keys of the
   * landscape, water included.
   */
  method AddEntries(cells: seq<Cell>, ghost pen: set<Cell>, order: seq<Coord>, land: map<Coord, Cell>, known: set<Coord>,
                    records: seq<LocRecord>, census: Census, ghost hs: seq<seq<Animal>>, ghost cs: seq<seq<Animal>>,
                    ghost present: multiset<Animal>)
    returns (res: Outcome<SimError>, ghost groups: seq<seq<Animal>>, ghost hs': seq<seq<Animal>>, ghost cs': seq<seq<Animal>>,
             ghost present': multiset<Animal>)
    requires |order| == |cells| && Layout(cells, pen, order, land)
    requires Mirrors(cells, hs, cs) && Kept(hs, cs, present)
    modifies pen`herbivores, pen`carnivores, census`herbivores, census`carnivores
    ensures Mirrors(cells, hs', cs') && Kept(hs', cs', present')
    ensures var n := FirstStray(records, land.Keys);
      && (res == Pass <==> n == |records|)
      && (n == |records| ==> |groups| == n)
      && (n < |records| ==>
            (|groups| == n + 1 &&
             res == Fail(StrayError(records[n].loc, known))))
      && (forall i :: 0 <= i < |cells| ==>
            hs'[i] == hs[i] + Landed(records, groups[..n], order[i], Herbivore) &&
            cs'[i] == cs[i] + Landed(records, groups[..n], order[i], Carnivore))
    ensures forall t :: 0 <= t < |groups| ==>
      (|groups[t]| == |records[t].pop| &&
       forall u :: 0 <= u < |groups[t]| ==> fresh(groups[t][u]) && Built(groups[t][u], records[t].pop[u]))
    ensures |groups| <= |records|
    ensures forall sp :: census.Count(sp) == old(census.Count(sp)) + NumAll(records[..|groups|], sp)
  {
    var t;
    t, groups, hs', cs', present' := PlaceAll(cells, pen, order, land, records, census, hs, cs, present);
    if t == |records| {
      assert groups[..t] == groups;
      res := Pass;
    } else {
      NumAllStep(records, t);
      ghost var before := groups;
      groups := StrayEntry(records, t, census, groups);
      forall u, v | 0 <= u < t + 1 && 0 <= v < |groups[u]| ensures fresh(groups[u][v]) {
        if u < t {
          assert groups[u] == before[u];
        }
      }
      var loc := records[t].loc;
      res := Fail(StrayError(loc, known));
    }
  }

  class BioSim {
    const island: Island
    /** land_cells.values(): the land cells, in the order run_year_cycle visits them. */
    const cells: seq<Cell>
    /** The class-level animal counters of both species. */
    const census: Census
    /** The year property: the number of years simulated. */
    var year: int

    /**
     * The cells are the island's land cells in land order, and no animal lives in two places.
     * The terrain tables are shared by all simulations; their validity is kept apart.
     */
    ghost predicate Valid()
      reads cells
    {
      |cells| == |island.landOrder| && Placed() && forall n: nat :: n == |cells| ==> PeacefulAt(n)
    }

    /** The cells are the island's land cells, in land order, each once. */
    ghost predicate Placed()
    {
      forall n: nat :: n == |cells| ==> PlacedAt(n)
    }

    /** The facts of Placed, named by the number of cells so that they are unfolded only where asked for. */
    ghost predicate PlacedAt(n: nat)
    {
      && island.Shape()
      && |cells| == |island.landOrder|
      && (forall i :: 0 <= i < |cells| ==>
            island.landOrder[i] in island.landCells && cells[i] == island.landCells[island.landOrder[i]])
      && NoDup(cells) && Land(cells)
    }

    /** No animal lives in two places; named by the number of cells so that it is unfolded only where asked for. */
    ghost predicate PeacefulAt(n: nat)
      reads cells
    {
      Consistent(HerbLists(cells), CarnLists(cells))
    }

    /** Every animal on the island. */
    ghost function Residents(): set<Animal>
      reads cells
    {
      Dwellers(HerbLists(cells), CarnLists(cells))
    }

    /** A simulation of a new island whose land cells are all empty, at year 0. */
    constructor (island: Island, census: Census)
      requires island.Valid()
      requires forall k :: k in island.landCells ==> island.landCells[k].herbivores == [] && island.landCells[k].carnivores == []
      ensures Valid() && this.island == island && this.census == census && year == 0
      ensures |cells| == |island.landOrder| && forall i :: 0 <= i < |cells| ==>
        island.landOrder[i] in island.landCells && cells[i] == island.landCells[island.landOrder[i]] &&
        cells[i].herbivores == [] && cells[i].carnivores == []
    {
      var order := island.landOrder;
      var cs := seq(|order|, i requires 0 <= i < |order| => island.landCells[order[i]]);
      this.island := island;
      this.cells := cs;
      this.census := census;
      year := 0;
      new;
      assert island.Shape();
      forall i, j | 0 <= i < j < |cs| ensures cs[i] != cs[j] {
        assert order[i] != order[j];
      }
      EmptyConsistent(HerbLists(cs), CarnLists(cs));
      assert PlacedAt(|cells|) && PeacefulAt(|cells|);
    }

    /**
     * BioSim(island_map, ini_pop): a string map (or the default map) becomes an island, any other value is
     * refused; then the initial population is added and the year counter starts at 0.
     */
    static method Create(islandMap: MapArg, iniPop: PopulationArg, tables: Tables, census: Census)
      returns (res: Result<BioSim, SimError>, ghost groups: seq<seq<Animal>>)
      requires tables.Valid()
      modifies census
      ensures islandMap.NotAString? ==> res == Err(MapNotAString) && unchanged(census)
      ensures !islandMap.NotAString? ==>
        var m := MapText(islandMap);
        && (res == Err(BadMap(NonUniformRows)) <==> !UniformRows(RowLengths(m)))
        && (res == Err(BadMap(UnknownLetter)) <==> UniformRows(RowLengths(m)) && !AllLetters(GridRows(m)))
        && (res == Err(BadMap(LandOnBorder)) <==>
              && UniformRows(RowLengths(m)) && AllLetters(GridRows(m))
              && forall land :: ParsedFrom(land, GridRows(m)) ==> !BorderIsWater(land))
        && forall land :: ParsedFrom(land, GridRows(m)) ==>
             UniformRows(RowLengths(m)) && AllLetters(GridRows(m)) && BorderIsWater(land) ==>
             PopulationOutcome(res, iniPop, LandKeys(land), land.tiles.Keys)
      ensures res.Err? && res.error.BadMap? ==> unchanged(census)
      ensures iniPop.NotAList? ==> res.Err?
      ensures res.Ok? ==>
        && res.value.island.tables == tables
        && ParsedFrom(res.value.island.landscape, GridRows(MapText(islandMap))) && BorderIsWater(res.value.island.landscape)
      ensures res.Ok? ==> Populated(res.value, iniPop, census, groups) && fresh(res.value)
      ensures res.Ok? ==> forall t, u :: 0 <= t < |groups| && 0 <= u < |groups[t]| ==>
        fresh(groups[t][u]) && Built(groups[t][u], iniPop.records[t].pop[u])
      ensures res.Ok? ==> forall sp :: census.Count(sp) == old(census.Count(sp)) + NumAll(iniPop.records, sp)
    {
      if islandMap.NotAString? {
        return Err(MapNotAString), [];
      }
      res, groups := FromMap(MapText(islandMap), iniPop, tables, census);
    }

    /** The constructor once the map is a string: Island(map_str), then the population. */
    static method FromMap(mapStr: string, iniPop: PopulationArg, tables: Tables, census: Census)
      returns (res: Result<BioSim, SimError>, ghost groups: seq<seq<Animal>>)
      requires tables.Valid()
      modifies census
      ensures res == Err(BadMap(NonUniformRows)) <==> !UniformRows(RowLengths(mapStr))
      ensures res == Err(BadMap(UnknownLetter)) <==> UniformRows(RowLengths(mapStr)) && !AllLetters(GridRows(mapStr))
      ensures res == Err(BadMap(LandOnBorder)) <==>
        && UniformRows(RowLengths(mapStr)) && AllLetters(GridRows(mapStr))
        && forall land :: ParsedFrom(land, GridRows(mapStr)) ==> !BorderIsWater(land)
      ensures res.Err? && res.error.BadMap? ==> unchanged(census)
      ensures forall land :: ParsedFrom(land, GridRows(mapStr)) ==>
        UniformRows(RowLengths(mapStr)) && AllLetters(GridRows(mapStr)) && BorderIsWater(land) ==>
        PopulationOutcome(res, iniPop, LandKeys(land), land.tiles.Keys)
      ensures res.Ok? ==>
        && res.value.island.tables == tables
        && ParsedFrom(res.value.island.landscape, GridRows(mapStr)) && BorderIsWater(res.value.island.landscape)
      ensures res.Ok? ==> Populated(res.value, iniPop, census, groups) && fresh(res.value)
      ensures res.Ok? ==> forall t, u :: 0 <= t < |groups| && 0 <= u < |groups[t]| ==>
        fresh(groups[t][u]) && Built(groups[t][u], iniPop.records[t].pop[u])
      ensures res.Ok? ==> forall sp :: census.Count(sp) == old(census.Count(sp)) + NumAll(iniPop.records, sp)
    {
      var built := Island.FromMapStr(mapStr, tables);
      if built.Err? {
        return Err(BadMap(built.error)), [];
      }
      ghost var land := built.value.landscape;
      ParsedUnique(land, GridRows(mapStr));
      res, groups := Populate(built.value, iniPop, census);
      assert PopulationOutcome(res, iniPop, LandKeys(land), land.tiles.Keys);
    }

    /**
     * The simulation holds its initial population: iniPop is a list whose every entry names a land cell,
     * groups[t] are the new animals built from entry t, and each cell holds the animals of the entries naming it.
     */
    static ghost predicate Populated(sim: BioSim, iniPop: PopulationArg, census: Census, groups: seq<seq<Animal>>)
      reads sim, sim.cells
    {
      && iniPop.PopList? && |groups| == |iniPop.records|
      && (forall t :: 0 <= t < |groups| ==> |groups[t]| == |iniPop.records[t].pop|)
      && forall n: nat :: n == |groups| ==> PopulatedAt(sim, iniPop, census, groups, n)
    }

    /** The facts of Populated, named by the number of groups so that they are unfolded only where asked for. */
    static ghost predicate PopulatedAt(sim: BioSim, iniPop: PopulationArg, census: Census, groups: seq<seq<Animal>>, n: nat)
      reads sim, sim.cells
    {
      && sim.Valid() && sim.year == 0 && sim.census == census
      && iniPop.PopList? && FirstStray(iniPop.records, sim.island.landCells.Keys) == |iniPop.records|
      && |groups| == |iniPop.records|
      && |sim.cells| == |sim.island.landOrder|
      && (forall i :: 0 <= i < |sim.cells| ==>
            sim.cells[i].herbivores == Landed(iniPop.records, groups, sim.island.landOrder[i], Herbivore) &&
            sim.cells[i].carnivores == Landed(iniPop.records, groups, sim.island.landOrder[i], Carnivore))
    }

    /** The second half of the constructor: a simulation of a new island, then add_population(ini_pop). */
    static method Populate(island: Island, iniPop: PopulationArg, census: Census)
      returns (res: Result<BioSim, SimError>, ghost groups: seq<seq<Animal>>)
      requires island.Valid()
      requires forall k :: k in island.landCells ==>
        island.landCells[k].herbivores == [] && island.landCells[k].carnivores == []
      modifies census, island.landCells.Values
      ensures PopulationOutcome(res, iniPop, island.landCells.Keys, island.landscape.tiles.Keys)
      ensures res.Err? ==> !res.error.BadMap?
      ensures res.Ok? ==> res.value.island == island && fresh(res.value) && Populated(res.value, iniPop, census, groups)
      ensures res.Ok? ==>
        (forall t, u :: 0 <= t < |groups| && 0 <= u < |groups[t]| ==>
           fresh(groups[t][u]) && Built(groups[t][u], iniPop.records[t].pop[u])) &&
        (forall sp :: census.Count(sp) == old(census.Count(sp)) + NumAll(iniPop.records, sp))
    {
      var sim := new BioSim(island, census);
      var added;
      added, groups := sim.AddInitial(iniPop);
      if added.Fail? {
        return Err(added.error), groups;
      }
      res := Ok(sim);
    }

    /** add_population(ini_pop) on a new simulation, whose cells are all empty and whose year is 0. */
    method AddInitial(iniPop: PopulationArg) returns (res: Outcome<SimError>, ghost groups: seq<seq<Animal>>)
      requires Valid() && year == 0
      requires forall i :: 0 <= i < |cells| ==> cells[i].herbivores == [] && cells[i].carnivores == []
      modifies cells, census
      ensures year == 0
      ensures iniPop.NotAList? ==> res == Fail(PopNotAList)
      ensures iniPop.PopList? ==>
        var records, n := iniPop.records, FirstStray(iniPop.records, island.landCells.Keys);
        && (res == Pass <==> n == |records|)
        && (n < |records| ==> res == Fail(StrayError(records[n].loc, island.landscape.tiles.Keys)))
      ensures res.Fail? ==> !res.error.BadMap?
      ensures res.Pass? ==> Populated(this, iniPop, census, groups)
      ensures res.Pass? ==>
        (forall t, u :: 0 <= t < |groups| && 0 <= u < |groups[t]| ==>
           fresh(groups[t][u]) && Built(groups[t][u], iniPop.records[t].pop[u])) &&
        (forall sp :: census.Count(sp) == old(census.Count(sp)) + NumAll(iniPop.records, sp))
    {
      res, groups := AddPopulation(iniPop);
      if res.Pass? {
        assert groups[..|groups|] == groups;
        assert iniPop.records[..|groups|] == iniPop.records;
        assert PopulatedAt(this, iniPop, census, groups, |groups|);
      }
    }

    /**
     * add_population: for each entry in turn, build its animals (each counted as it is built), then
     * add them to the land cell at the entry's location. An unknown location or a water cell stops
     * the loop with an error, the entries before it placed and its own animals counted.
     */
    method AddPopulation(population: PopulationArg) returns (res: Outcome<SimError>, ghost groups: seq<seq<Animal>>)
      requires Valid()
      modifies cells, census
      ensures Valid()
      ensures population.NotAList? ==> res == Fail(PopNotAList) && groups == [] && unchanged(census) && unchanged(cells)
      ensures population.PopList? ==>
        var records, n := population.records, FirstStray(population.records, island.landCells.Keys);
        && (res == Pass <==> n == |records|)
        && (n == |records| ==> |groups| == n)
        && (n < |records| ==>
              (|groups| == n + 1 &&
               res == Fail(StrayError(records[n].loc, island.landscape.tiles.Keys))))
        && (forall t :: 0 <= t < |groups| ==>
              (|groups[t]| == |records[t].pop| &&
               forall u :: 0 <= u < |groups[t]| ==> fresh(groups[t][u]) && Built(groups[t][u], records[t].pop[u])))
        && (forall sp :: census.Count(sp) == old(census.Count(sp)) + NumAll(records[..|groups|], sp))
        && (forall i :: 0 <= i < |cells| ==>
              cells[i].herbivores == old(cells[i].herbivores) + Landed(records, groups[..n], island.landOrder[i], Herbivore) &&
              cells[i].carnivores == old(cells[i].carnivores) + Landed(records, groups[..n], island.landOrder[i], Carnivore))
    {
      if population.NotAList? {
        return Fail(PopNotAList), [];
      }
      ghost var hs, cs := HerbLists(cells), CarnLists(cells);
      ghost var hs', cs', present';
      ghost var pen := set i | 0 <= i < |cells| :: cells[i];
      ghost var present := Union(ListResidents(hs, cs));
      Opened(pen, hs, cs, present);
      res, groups, hs', cs', present' := AddEntries(cells, pen, island.landOrder, island.landCells, island.landscape.tiles.Keys,
                                                    population.records, census, hs, cs, present);
      assert ConsistentAt(hs', cs', present', |hs'|);
      Revalidate(hs', cs');
    }

    /** What the loop of add_population is handed: the layout of the land cells and the island's lists. */
    lemma Opened(pen: set<Cell>, hs: seq<seq<Animal>>, cs: seq<seq<Animal>>, present: multiset<Animal>)
      requires Valid() && pen == (set i | 0 <= i < |cells| :: cells[i])
      requires hs == HerbLists(cells) && cs == CarnLists(cells) && present == Union(ListResidents(hs, cs))
      ensures |island.landOrder| == |cells| && Layout(cells, pen, island.landOrder, island.landCells)
      ensures Mirrors(cells, hs, cs) && Kept(hs, cs, present)
    {
      assert PlacedAt(|cells|) && PeacefulAt(|cells|);
      forall k | k in island.landCells ensures IndexOf(island.landOrder, k) < |island.landOrder| {
        IndexOfFound(island.landOrder, k);
      }
      assert LayoutAt(cells, pen, island.landOrder, island.landCells, |cells|);
    }

    /** Every cell the year cycle visits is valid and has valid parameters. */
    lemma CellsValid()
      requires Valid() && island.tables.Valid()
      ensures forall i :: 0 <= i < |cells| ==> cells[i].table.Valid() && cells[i].Valid()
    {
      assert PlacedAt(|cells|) && PeacefulAt(|cells|);
      ValidFromLists(cells, HerbLists(cells), CarnLists(cells));
      forall i | 0 <= i < |cells| ensures cells[i].table.Valid() {
        assert island.landOrder[i] in island.landCells;
      }
    }

    /**
     * run_year_cycle: each land cell in turn runs its six seasons; then the year counter goes up by one.
     * nbrs[i] are the positions of land_cell_neighbors of the i-th cell, and draws(i) the random draws of its turn.
     */
    method RunYearCycle(nbrs: seq<seq<nat>>, fit: FitnessFn, draws: nat -> CellDraws, ghost animals: set<Animal>)
      returns (ghost hs: seq<seq<Animal>>, ghost cs: seq<seq<Animal>>)
      requires Valid() && island.tables.Valid() && |nbrs| == |cells| && animals == Residents()
      requires forall i :: 0 <= i < |cells| ==> Neighbours(|cells|, i, nbrs[i])
      modifies this`year, cells, census, animals
      ensures Valid() && year == old(year) + 1
      ensures Mirrors(cells, hs, cs) && forall a :: a in Union(ListResidents(hs, cs)) ==> a in animals || fresh(a)
    {
      hs, cs := VisitAll(nbrs, fit, draws, animals);
      NextYear();
    }

    /** self._year += 1 */
    method NextYear()
      requires Valid()
      modifies this`year
      ensures Valid() && year == old(year) + 1
    {
      year := year + 1;
    }

    /** The loop over land_cells.items() in run_year_cycle; hs and cs are the cells' lists afterwards. */
    method VisitAll(nbrs: seq<seq<nat>>, fit: FitnessFn, draws: nat -> CellDraws, ghost animals: set<Animal>)
      returns (ghost hs: seq<seq<Animal>>, ghost cs: seq<seq<Animal>>)
      requires Valid() && island.tables.Valid() && |nbrs| == |cells| && animals == Residents()
      requires forall i :: 0 <= i < |cells| ==> Neighbours(|cells|, i, nbrs[i])
      modifies cells, census, animals
      ensures Valid()
      ensures Mirrors(cells, hs, cs) && forall a :: a in Union(ListResidents(hs, cs)) ==> a in animals || fresh(a)
    {
      CellsValid();
      assert PlacedAt(|cells|) && PeacefulAt(|cells|);
      hs, cs := VisitCells(cells, nbrs, fit, draws, census, HerbLists(cells), CarnLists(cells), animals);
      Revalidate(hs, cs);
    }

    /** Once every cell has taken its turn, the simulation is valid again. */
    lemma Revalidate(hs: seq<seq<Animal>>, cs: seq<seq<Animal>>)
      requires Placed() && Mirrors(cells, hs, cs) && Consistent(hs, cs)
      ensures Valid()
    {
      MirrorsAreLists(cells, hs, cs);
      assert PlacedAt(|cells|) && PeacefulAt(|cells|);
    }
  }
}
