/**
 * Landscape cells: the terrain kinds, the class-level parameter table of each kind, and
 * the land cell with its fodder and its two ordered resident lists.
 */
module Cells {
  import opened Wrappers
  import opened Seqs
  import opened Sorting
  import opened Animals

  datatype Terrain = Water | Lowland | Highland | Desert

  /** f_max of each land kind as shipped: Lowland 800, Highland 300, Desert 0. */
  function DefaultFMax(t: Terrain): (f: real)
    requires t != Water
    ensures t == Desert ==> f == 0.0
    ensures f >= 0.0
  {
    match t
    case Lowland => 800.0
    case Highland => 300.0
    case Desert => 0.0
  }

  /** The class attribute params of one land kind, shared by all its cells. */
  class TerrainTable {
    var params: map<string, real>

    constructor (fMax: real)
      ensures params == map["f_max" := fMax] && Valid()
    {
      params := map["f_max" := fMax];
    }

    ghost predicate Valid()
      reads this
    {
      "f_max" in params
    }

    function FMax(): real
      reads this
      requires Valid()
    {
      params["f_max"]
    }

    /**
     * set_params(param_dict): overwrite the entries whose key is already a parameter and
     * skip the others; warned says whether 'Invalid param dict!' was printed.
     */
    method SetParams(overrides: map<string, real>) returns (warned: bool)
      modifies this
      ensures params.Keys == old(params).Keys
      ensures forall k :: k in params ==> params[k] == if k in overrides then overrides[k] else old(params)[k]
      ensures warned <==> exists k :: k in overrides && k !in old(params)
      ensures old(Valid()) ==> Valid() && FMax() == if "f_max" in overrides then overrides["f_max"] else old(FMax())
    {
      var todo := overrides.Keys;
      warned := false;
      while todo != {}
        invariant todo <= overrides.Keys
        invariant params.Keys == old(params).Keys
        invariant forall k :: k in params ==>
          params[k] == if k in overrides && k !in todo then overrides[k] else old(params)[k]
        invariant warned <==> exists k :: k in overrides && k !in todo && k !in old(params)
        decreases |todo|
      {
        var k :| k in todo;
        if k in params {
          params := params[k := overrides[k]];
        } else {
          warned := true;
        }
        todo := todo - {k};
      }
    }
  }

  /** The three land kinds' tables. */
  datatype Tables = Tables(lowland: TerrainTable, highland: TerrainTable, desert: TerrainTable)
  {
    function For(t: Terrain): TerrainTable
      requires t != Water
    {
      match t
      case Lowland => lowland
      case Highland => highland
      case Desert => desert
    }

    ghost predicate Valid()
      reads lowland, highland, desert
    {
      lowland.Valid() && highland.Valid() && desert.Valid()
    }
  }

  function IsHerbivore(a: Animal): bool
  {
    a.species == Herbivore
  }

  /**
   * The animals of a list that belong to one species, in list order. The two species'
   * lists together hold exactly the animals of the list (Partition's contract).
   */
  function OfSpecies(s: seq<Animal>, sp: Species): (r: seq<Animal>)
    ensures forall i :: 0 <= i < |r| ==> r[i].species == sp
  {
    var parts := Partition(s, IsHerbivore);
    if sp == Herbivore then parts.0 else parts.1
  }

  /** Appending an animal appends it to its own species' list only. */
  lemma OfSpeciesSnoc(s: seq<Animal>, x: Animal)
    ensures x.species == Herbivore ==>
      OfSpecies(s + [x], Herbivore) == OfSpecies(s, Herbivore) + [x] &&
      OfSpecies(s + [x], Carnivore) == OfSpecies(s, Carnivore)
    ensures x.species == Carnivore ==>
      OfSpecies(s + [x], Herbivore) == OfSpecies(s, Herbivore) &&
      OfSpecies(s + [x], Carnivore) == OfSpecies(s, Carnivore) + [x]
  {
    assert (s + [x])[..|s|] == s;
  }

  /** The two resident lists after removing some animals one by one, and whether all were found. */
  datatype Removal = Removal(herbivores: seq<Animal>, carnivores: seq<Animal>, ok: bool)

  function RemoveOne(r: Removal, x: Animal): Removal
  {
    if x.species == Herbivore then
      match RemoveFirst(r.herbivores, x)
      case None => Removal(r.herbivores, r.carnivores, false)
      case Some(h) => Removal(h, r.carnivores, true)
    else
      match RemoveFirst(r.carnivores, x)
      case None => Removal(r.herbivores, r.carnivores, false)
      case Some(c) => Removal(r.herbivores, c, true)
  }

  /** remove_animals: list.remove for each animal in turn, stopping at the first ValueError. */
  function RemoveEach(h: seq<Animal>, c: seq<Animal>, xs: seq<Animal>): Removal
  {
    if |xs| == 0 then Removal(h, c, true)
    else
      var r := RemoveEach(h, c, xs[..|xs| - 1]);
      if !r.ok then r else RemoveOne(r, xs[|xs| - 1])
  }

  /**
   * What removal promises: it succeeds exactly when each species' list holds every animal
   * to remove (as often as it is listed), and then takes exactly those animals out.
   */
  ghost predicate RemovalMeets(h: seq<Animal>, c: seq<Animal>, xs: seq<Animal>)
  {
    var r := RemoveEach(h, c, xs);
    var hs, cs := multiset(OfSpecies(xs, Herbivore)), multiset(OfSpecies(xs, Carnivore));
    && (r.ok <==> hs <= multiset(h) && cs <= multiset(c))
    && (r.ok ==> multiset(r.herbivores) + hs == multiset(h) && multiset(r.carnivores) + cs == multiset(c))
  }

  lemma {:induction false} RemoveEachCorrect(h: seq<Animal>, c: seq<Animal>, xs: seq<Animal>)
    ensures RemovalMeets(h, c, xs)
  {
    if |xs| > 0 {
      RemoveEachCorrect(h, c, xs[..|xs| - 1]);
      if xs[|xs| - 1].species == Herbivore {
        RemoveHerbivoreStep(h, c, xs);
      } else {
        RemoveCarnivoreStep(h, c, xs);
      }
    }
  }

  lemma RemoveHerbivoreStep(h: seq<Animal>, c: seq<Animal>, xs: seq<Animal>)
    requires |xs| > 0 && xs[|xs| - 1].species == Herbivore && RemovalMeets(h, c, xs[..|xs| - 1])
    ensures RemovalMeets(h, c, xs)
  {
    var front, x := xs[..|xs| - 1], xs[|xs| - 1];
    var r := RemoveEach(h, c, front);
    var hs, cs := OfSpecies(front, Herbivore), OfSpecies(front, Carnivore);
    assert OfSpecies(xs, Herbivore) == hs + [x] && OfSpecies(xs, Carnivore) == cs;
    assert multiset(hs + [x]) == multiset(hs) + multiset{x};
    if r.ok {
      OneMoreFits(multiset(r.herbivores), multiset(hs), multiset(h), x);
      var after := RemoveFirst(r.herbivores, x);
      if after.Some? {
        assert RemoveEach(h, c, xs) == Removal(after.value, r.carnivores, true);
        calc {
          multiset(after.value) + multiset(hs + [x]);
          multiset(after.value) + multiset{x} + multiset(hs);
          multiset(r.herbivores) + multiset(hs);
        }
      }
    }
  }

  lemma RemoveCarnivoreStep(h: seq<Animal>, c: seq<Animal>, xs: seq<Animal>)
    requires |xs| > 0 && xs[|xs| - 1].species == Carnivore && RemovalMeets(h, c, xs[..|xs| - 1])
    ensures RemovalMeets(h, c, xs)
  {
    var front, x := xs[..|xs| - 1], xs[|xs| - 1];
    var r := RemoveEach(h, c, front);
    var hs, cs := OfSpecies(front, Herbivore), OfSpecies(front, Carnivore);
    assert OfSpecies(xs, Carnivore) == cs + [x] && OfSpecies(xs, Herbivore) == hs;
    assert multiset(cs + [x]) == multiset(cs) + multiset{x};
    if r.ok {
      OneMoreFits(multiset(r.carnivores), multiset(cs), multiset(c), x);
      var after := RemoveFirst(r.carnivores, x);
      if after.Some? {
        assert RemoveEach(h, c, xs) == Removal(r.herbivores, after.value, true);
        calc {
          multiset(after.value) + multiset(cs + [x]);
          multiset(after.value) + multiset{x} + multiset(cs);
          multiset(r.carnivores) + multiset(cs);
        }
      }
    }
  }

  /** With rest what is left of whole after removing taken, x can be taken once more exactly when x is in rest. */
  lemma OneMoreFits<T>(rest: multiset<T>, taken: multiset<T>, whole: multiset<T>, x: T)
    requires rest + taken == whole
    ensures x in rest <==> taken + multiset{x} <= whole
  {
    if taken + multiset{x} <= whole {
      assert (taken + multiset{x})[x] <= whole[x];
    }
  }

  /** A source of randbelow draws: below(n) stands for randbelow(n + 1), so it is at most n. */
  type Below = f: nat -> nat | forall n :: f(n) <= n witness (n: nat) => 0

  /**
   * random.shuffle's loop run for i = n - 1 down to 1: x[i], x[j] = x[j], x[i] with
   * j = randbelow(i + 1).
   */
  function ShuffleSteps<T>(s: seq<T>, below: Below, n: nat): (r: seq<T>)
    requires n <= |s|
    ensures |r| == |s| && multiset(r) == multiset(s)
    decreases n
  {
    if n <= 1 then s else ShuffleSteps(Swap(s, n - 1, below(n - 1)), below, n - 1)
  }

  /**
   * The sort key of a fitness: the fitness itself, or its negation for a descending sort.
   * Python's sorted(..., reverse=True) keeps equal keys in their original order, which is
   * what a stable ascending sort on the negated key does.
   */
  function SortKey(f: real, descending: bool): real
  {
    if descending then -f else f
  }

  /** The items of the fitness dictionary, each animal paired with its sort key. */
  function FitnessPairs(s: seq<Animal>, fit: FitnessFn, descending: bool): (r: seq<(Animal, real)>)
    reads s
    ensures Firsts(r) == s
    ensures forall i :: 0 <= i < |r| ==> r[i].1 == SortKey(s[i].Fitness(fit), descending)
  {
    var fits := FitnessOf(s, fit);
    seq(|s|, i requires 0 <= i < |s| => (s[i], SortKey(fits[i], descending)))
  }

  /** The sorted fitness dictionary is a permutation of Dedup(s), each key that animal's. */
  lemma SortedPairsFacts(s: seq<Animal>, fit: FitnessFn, descending: bool)
    ensures var r := SortByKey(FitnessPairs(Dedup(s), fit, descending));
            SortedByKey(r) &&
            multiset(Firsts(r)) == multiset(Dedup(s)) &&
            forall i :: 0 <= i < |r| ==> r[i].1 == SortKey(r[i].0.Fitness(fit), descending)
  {
    var d := Dedup(s);
    var pairs := FitnessPairs(d, fit, descending);
    var r := SortByKey(pairs);
    SortByKeyCorrect(pairs);
    SortByKeyItems(pairs);
    assert Firsts(pairs) == d;
    forall i | 0 <= i < |r| ensures r[i].1 == SortKey(r[i].0.Fitness(fit), descending) {
      assert r[i] in multiset(pairs);
      assert r[i] in pairs;
      var k :| 0 <= k < |pairs| && pairs[k] == r[i];
      assert pairs[k] == (d[k], SortKey(d[k].Fitness(fit), descending));
    }
  }

  /**
   * sorted(fitness dictionary items, key=fitness): each animal of s once, from least to most
   * fit, or from most to least when descending; equal fitnesses keep their list order.
   */
  function ByFitness(s: seq<Animal>, fit: FitnessFn, descending: bool): (r: seq<Animal>)
    reads s
    ensures multiset(r) == multiset(Dedup(s))
    ensures !descending ==> forall i, j :: 0 <= i < j < |r| ==> r[i].Fitness(fit) <= r[j].Fitness(fit)
    ensures descending ==> forall i, j :: 0 <= i < j < |r| ==> r[i].Fitness(fit) >= r[j].Fitness(fit)
    ensures forall i :: 0 <= i < |r| ==> r[i] in s
  {
    SortedPairsFacts(s, fit, descending);
    var r := Firsts(SortByKey(FitnessPairs(Dedup(s), fit, descending)));
    ReorderedWithin(r, Dedup(s), s);
    r
  }

  /** The animals of s, each once, sorted by key from low to high; equal keys keep list order. */
  ghost function SortedBy(s: seq<Animal>, key: map<Animal, real>): (r: seq<Animal>)
    requires forall i :: 0 <= i < |s| ==> s[i] in key
    ensures forall i :: 0 <= i < |r| ==> r[i] in s
  {
    var d := Dedup(s);
    var pairs := seq(|d|, i requires 0 <= i < |d| => (d[i], key[d[i]]));
    SortByKeyItems(pairs);
    assert Firsts(pairs) == d;
    var r := Firsts(SortByKey(pairs));
    ReorderedWithin(r, d, s);
    r
  }

  /** Sorting by fitness is sorting by a table that holds each animal's fitness. */
  lemma ByFitnessSortedBy(s: seq<Animal>, fit: FitnessFn, key: map<Animal, real>)
    requires forall i :: 0 <= i < |s| ==> s[i] in key && key[s[i]] == s[i].Fitness(fit)
    ensures ByFitness(s, fit, false) == SortedBy(s, key)
  {
    var d := Dedup(s);
    assert FitnessPairs(d, fit, false) == seq(|d|, i requires 0 <= i < |d| => (d[i], key[d[i]]));
  }

  /** A herbivore list and a carnivore list: each holds its own species only, and no animal twice. */
  ghost predicate SpeciesLists(h: seq<Animal>, c: seq<Animal>)
  {
    && (forall i :: 0 <= i < |h| ==> h[i].species == Herbivore)
    && (forall i :: 0 <= i < |c| ==> c[i].species == Carnivore)
    && NoDup(h) && NoDup(c)
  }

  /** Together the two lists hold no animal twice. */
  lemma ListsNoDup(h: seq<Animal>, c: seq<Animal>)
    requires SpeciesLists(h, c)
    ensures NoDup(h + c)
  {
    forall i, j | 0 <= i < j < |h + c| ensures (h + c)[i] != (h + c)[j] {
      if j < |h| {
        assert (h + c)[i] == h[i] && (h + c)[j] == h[j];
      } else if i >= |h| {
        assert (h + c)[i] == c[i - |h|] && (h + c)[j] == c[j - |h|];
      } else {
        assert (h + c)[i].species == Herbivore && (h + c)[j].species == Carnivore;
      }
    }
  }

  /** A list of herbivores followed by a list of carnivores splits back into the two lists. */
  lemma {:induction false} OfSpeciesSplit(hs: seq<Animal>, cs: seq<Animal>)
    requires forall i :: 0 <= i < |hs| ==> hs[i].species == Herbivore
    requires forall i :: 0 <= i < |cs| ==> cs[i].species == Carnivore
    ensures OfSpecies(hs + cs, Herbivore) == hs && OfSpecies(hs + cs, Carnivore) == cs
    decreases |hs| + |cs|
  {
    if |cs| > 0 {
      var n := |cs| - 1;
      OfSpeciesSplit(hs, cs[..n]);
      assert hs + cs == (hs + cs[..n]) + [cs[n]];
      OfSpeciesSnoc(hs + cs[..n], cs[n]);
      assert cs[..n] + [cs[n]] == cs;
    } else {
      HerbivoresOnly(hs);
      assert hs + cs == hs;
    }
  }

  /** A list of herbivores is its own herbivore list and has no carnivores. */
  lemma {:induction false} HerbivoresOnly(hs: seq<Animal>)
    requires forall i :: 0 <= i < |hs| ==> hs[i].species == Herbivore
    ensures OfSpecies(hs, Herbivore) == hs && OfSpecies(hs, Carnivore) == []
  {
    if |hs| > 0 {
      var n := |hs| - 1;
      HerbivoresOnly(hs[..n]);
      assert hs == hs[..n] + [hs[n]];
      OfSpeciesSnoc(hs[..n], hs[n]);
    }
  }

  /** Some of the animals of a list of one species are again of that species. */
  lemma OfOneSpecies(s: seq<Animal>, t: seq<Animal>, sp: Species)
    requires multiset(s) <= multiset(t) && forall i :: 0 <= i < |t| ==> t[i].species == sp
    ensures forall i :: 0 <= i < |s| ==> s[i].species == sp
  {
    forall i | 0 <= i < |s| ensures s[i].species == sp {
      assert s[i] in multiset(t);
      var k :| 0 <= k < |t| && t[k] == s[i];
    }
  }

  /** Animals drawn from two species' lists fit back into their own species' list. */
  lemma SpeciesSubsets(xs: seq<Animal>, h: seq<Animal>, c: seq<Animal>)
    requires multiset(xs) <= multiset(h) + multiset(c)
    requires SpeciesLists(h, c)
    ensures multiset(OfSpecies(xs, Herbivore)) <= multiset(h)
    ensures multiset(OfSpecies(xs, Carnivore)) <= multiset(c)
  {
    var xh, xc := OfSpecies(xs, Herbivore), OfSpecies(xs, Carnivore);
    assert multiset(xh) + multiset(xc) == multiset(xs);
    forall a | a in multiset(xh) ensures multiset(xh)[a] <= multiset(h)[a] {
      var i :| 0 <= i < |xh| && xh[i] == a;
      assert multiset(c)[a] == 0;
      assert multiset(xh)[a] <= multiset(xs)[a] <= multiset(h)[a] + multiset(c)[a];
    }
    forall a | a in multiset(xc) ensures multiset(xc)[a] <= multiset(c)[a] {
      var i :| 0 <= i < |xc| && xc[i] == a;
      assert multiset(h)[a] == 0;
      assert multiset(xc)[a] <= multiset(xs)[a] <= multiset(h)[a] + multiset(c)[a];
    }
  }

  /**
   * Removing animals that are among the residents always succeeds, takes out exactly those
   * animals and leaves two valid species lists.
   */
  lemma RemovingResidents(h: seq<Animal>, c: seq<Animal>, xs: seq<Animal>)
    requires SpeciesLists(h, c) && multiset(xs) <= multiset(h) + multiset(c)
    ensures var r := RemoveEach(h, c, xs);
      && r.ok && SpeciesLists(r.herbivores, r.carnivores)
      && multiset(r.herbivores) + multiset(r.carnivores) + multiset(xs) == multiset(h) + multiset(c)
  {
    var r := RemoveEach(h, c, xs);
    SpeciesSubsets(xs, h, c);
    RemoveEachCorrect(h, c, xs);
    var xh, xc := OfSpecies(xs, Herbivore), OfSpecies(xs, Carnivore);
    assert multiset(xh) + multiset(xc) == multiset(xs);
    assert multiset(r.herbivores) <= multiset(h) && multiset(r.carnivores) <= multiset(c);
    SubNoDup(r.herbivores, h);
    SubNoDup(r.carnivores, c);
    OfOneSpecies(r.herbivores, h, Herbivore);
    OfOneSpecies(r.carnivores, c, Carnivore);
  }

  /** Removing herbivores only leaves the carnivore list as it was. */
  lemma {:induction false} RemovingHerbivoresOnly(h: seq<Animal>, c: seq<Animal>, xs: seq<Animal>)
    requires forall i :: 0 <= i < |xs| ==> xs[i].species == Herbivore
    ensures RemoveEach(h, c, xs).carnivores == c
  {
    if |xs| > 0 {
      RemovingHerbivoresOnly(h, c, xs[..|xs| - 1]);
    }
  }

  /**
   * f_max belongs to the terrain kind, not to the cell: cells that share a table have the
   * same f_max, and a set_params on that table changes it for all of them at once.
   */
  lemma SharedFMax(c1: Cell, c2: Cell)
    requires c1.table == c2.table && c1.table.Valid()
    ensures c1.FMax() == c2.FMax() == c1.table.params["f_max"]
  {
  }

  class Cell {
    const terrain: Terrain
    const table: TerrainTable
    var fodder: real
    var herbivores: seq<Animal>
    var carnivores: seq<Animal>

    /** Each list holds its own species only, and no animal twice. */
    ghost predicate Valid()
      reads this`herbivores, this`carnivores
    {
      terrain != Water && SpeciesLists(herbivores, carnivores)
    }

    /** A new land cell starts empty with its kind's f_max of fodder. */
    constructor (terrain: Terrain, table: TerrainTable)
      requires terrain != Water && table.Valid()
      ensures this.terrain == terrain && this.table == table
      ensures fodder == table.FMax() && herbivores == [] && carnivores == [] && Valid()
    {
      this.terrain := terrain;
      this.table := table;
      fodder := table.FMax();
      herbivores, carnivores := [], [];
    }

    /** f_max, a class-level parameter: the value in the table of the cell's kind. */
    function FMax(): real
      reads table
      requires table.Valid()
    {
      table.FMax()
    }

    /**
     * is_empty: no fodder left. For a non-negative fodder this holds exactly when no
     * herbivore grazing here gains weight or changes the fodder, whatever its appetite.
     */
    function IsEmpty(): (r: bool)
      reads this
      ensures fodder >= 0.0 ==> (r <==> forall w, amount :: amount > 0.0 ==> Graze(w, fodder, amount) == (w, fodder))
    {
      assert fodder > 0.0 ==> Graze(0.0, fodder, 1.0).0 > 0.0;
      fodder == 0.0
    }

    function Animals(): seq<Animal>
      reads this`herbivores, this`carnivores
    {
      herbivores + carnivores
    }

    function HerbCount(): nat
      reads this
    {
      |herbivores|
    }

    function CarnCount(): nat
      reads this
    {
      |carnivores|
    }

    /**
     * The residents list lists the herbivores first and then the carnivores: in a valid cell
     * the first HerbCount() of them are exactly its herbivores and the rest its carnivores.
     */
    lemma CountsSplit()
      requires Valid()
      ensures |Animals()| == HerbCount() + CarnCount()
      ensures forall i :: 0 <= i < |Animals()| ==> (Animals()[i].species == Herbivore <==> i < HerbCount())
      ensures forall i :: 0 <= i < |Animals()| ==> (Animals()[i].species == Carnivore <==> HerbCount() <= i)
    {
    }

    function AnimalCount(): (n: nat)
      reads this
      ensures n == HerbCount() + CarnCount()
    {
      |Animals()|
    }

    /** The residents as a multiset. */
    ghost function Residents(): multiset<Animal>
      reads this`herbivores, this`carnivores
    {
      multiset(herbivores) + multiset(carnivores)
    }

    /** Herbivores from least to most fit; ties keep their list order. */
    function SortedHerbivores(fit: FitnessFn): (r: seq<Animal>)
      reads this, herbivores
      ensures multiset(r) == multiset(Dedup(herbivores))
      ensures forall i, j :: 0 <= i < j < |r| ==> r[i].Fitness(fit) <= r[j].Fitness(fit)
    {
      ByFitness(herbivores, fit, false)
    }

    /** Carnivores from most to least fit; ties keep their list order. */
    function SortedCarnivores(fit: FitnessFn): (r: seq<Animal>)
      reads this, carnivores
      ensures multiset(r) == multiset(Dedup(carnivores))
      ensures forall i, j :: 0 <= i < j < |r| ==> r[i].Fitness(fit) >= r[j].Fitness(fit)
    {
      ByFitness(carnivores, fit, true)
    }

    /** add_animals: append each animal to its species' list, in input order. */
    method AddAnimals(animals: seq<Animal>)
      modifies this`herbivores, this`carnivores
      ensures herbivores == old(herbivores) + OfSpecies(animals, Herbivore)
      ensures carnivores == old(carnivores) + OfSpecies(animals, Carnivore)
    {
      var i := 0;
      while i < |animals|
        invariant 0 <= i <= |animals|
        invariant herbivores == old(herbivores) + OfSpecies(animals[..i], Herbivore)
        invariant carnivores == old(carnivores) + OfSpecies(animals[..i], Carnivore)
      {
        var animal := animals[i];
        assert animals[..i + 1] == animals[..i] + [animal];
        OfSpeciesSnoc(animals[..i], animal);
        if animal.species == Herbivore {
          herbivores := herbivores + [animal];
        } else {
          carnivores := carnivores + [animal];
        }
        i := i + 1;
      }
      assert animals[..i] == animals;
    }

    /**
     * remove_animals: list.remove each animal from its species' list. ok is false when an
     * animal was missing (ValueError); the lists then keep the removals made before it.
     */
    method RemoveAnimals(animals: seq<Animal>) returns (ok: bool)
      modifies this`herbivores, this`carnivores
      ensures Removal(herbivores, carnivores, ok) == RemoveEach(old(herbivores), old(carnivores), animals)
    {
      var i := 0;
      while i < |animals|
        invariant 0 <= i <= |animals|
        invariant Removal(herbivores, carnivores, true) == RemoveEach(old(herbivores), old(carnivores), animals[..i])
      {
        assert animals[..i + 1][..i] == animals[..i];
        var animal := animals[i];
        if animal.species == Herbivore {
          var r := RemoveFirst(herbivores, animal);
          if r.None? {
            assert RemoveEach(old(herbivores), old(carnivores), animals[..i + 1]).ok == false;
            RemoveStops(old(herbivores), old(carnivores), animals, i + 1);
            return false;
          }
          herbivores := r.value;
        } else {
          var r := RemoveFirst(carnivores, animal);
          if r.None? {
            assert RemoveEach(old(herbivores), old(carnivores), animals[..i + 1]).ok == false;
            RemoveStops(old(herbivores), old(carnivores), animals, i + 1);
            return false;
          }
          carnivores := r.value;
        }
        i := i + 1;
      }
      assert animals[..i] == animals;
      ok := true;
    }

    /** reset_animals: clear every resident's migration flag. */
    method ResetAnimals()
      modifies Animals()`hasMoved
      ensures forall i :: 0 <= i < |Animals()| ==> !Animals()[i].hasMoved
    {
      var all := Animals();
      var i := 0;
      while i < |all|
        invariant 0 <= i <= |all|
        invariant forall j :: 0 <= j < i ==> !all[j].hasMoved
      {
        all[i].hasMoved := false;
        i := i + 1;
      }
    }

    /**
     * randomize_herbs: random.shuffle of the herbivores, with below giving each randbelow draw.
     * The first postcondition says herbivores == ShuffleSteps(old(herbivores), below, n) for
     * n the old length; it is quantified over n so that callers see the shuffle's recursive
     * definition only where they mention ShuffleSteps themselves.
     */
    method RandomizeHerbs(below: Below)
      modifies this`herbivores
      ensures forall n :: n == |old(herbivores)| ==> herbivores == ShuffleSteps(old(herbivores), below, n)
      ensures multiset(herbivores) == multiset(old(herbivores))
      ensures forall a :: a in herbivores ==> a in old(herbivores)
      ensures old(Valid()) ==> Valid()
    {
      ghost var target := ShuffleSteps(herbivores, below, |herbivores|);
      var i: nat := |herbivores|;
      while i > 1
        invariant i <= |herbivores| == |old(herbivores)|
        invariant ShuffleSteps(herbivores, below, i) == target
      {
        i := i - 1;
        var j := below(i);
        herbivores := Swap(herbivores, i, j);
      }
      SameMembers(old(herbivores), herbivores);
      if old(Valid()) {
        PermutationKeepsNoDup(old(herbivores), herbivores);
        OfOneSpecies(herbivores, old(herbivores), Herbivore);
      }
    }
  }

  /** Once a removal has failed, later animals change nothing. */
  lemma {:induction false} RemoveStops(h: seq<Animal>, c: seq<Animal>, xs: seq<Animal>, i: nat)
    requires i <= |xs| && !RemoveEach(h, c, xs[..i]).ok
    ensures RemoveEach(h, c, xs) == RemoveEach(h, c, xs[..i])
    decreases |xs| - i
  {
    if i < |xs| {
      assert xs[..i + 1][..i] == xs[..i];
      RemoveStops(h, c, xs, i + 1);
    } else {
      assert xs[..i] == xs;
    }
  }
}
