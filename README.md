# BioSim island model in Dafny

This project models the core of BioSim. BioSim simulates an island of grid cells on which herbivores graze and carnivores hunt them, year after year.

**The island.** It is read from a multi-line map of the letters W (water), L (lowland), H (highland) and D (desert). Each character becomes the cell at its 1-based (row, column). The map is rejected in three cases:

- the stripped rows differ in length;
- a letter is unknown;
- a land cell lies on the border.

**Cells.** Every land cell holds a fodder counter and two ordered lists of residents, one for herbivores and one for carnivores. The fodder limit `f_max` of each terrain kind lives in a parameter table shared by all cells of that kind.

**Animals.** Every animal has an age, a weight, a parameter table and a `has_moved` flag.

**The year cycle.** Each land cell in turn, in land order, runs six seasons:

1. feeding: the fodder is refilled, the herbivores are shuffled and graze, then each carnivore hunts the herbivores sorted from least to most fit;
2. procreation;
3. migration to a randomly chosen land neighbour;
4. aging;
5. weight loss;
6. death.

After every cell has had its turn, the year counter goes up by one.

The model follows the code's structure. Classes whose fields the code updates are Dafny classes:

- the animal (`Animals.Animal`);
- the per-species instance counters (`Animals.Census`);
- the terrain parameter table (`Cells.TerrainTable`);
- the land cell (`Cells.Cell`);
- the island (`IslandMap.Island`);
- the simulation (`Simulation.BioSim`).

Their methods carry `modifies` clauses and state each new state. Every loop of the code is a `while` loop with invariants. Each loop is proved against a specification function that describes the same process on values, for example:

- `GrazeAfter` for grazing;
- `HuntAfter` for the hunt;
- `Born` over the give_birth outcomes for procreation;
- `Select` over the draws for migration and death;
- `RemoveEach` for `list.remove`.

The properties are proved about those functions: conservation, bounds, order, and "nothing else changes".

Randomness is an input everywhere:

- A Bernoulli draw `np.random.choice([True, False], p=[q, 1 - q])` is a uniform sample `u`, and the result is `u < q`.
- A normal draw is the value it produced.
- `random.shuffle` is CPython's Fisher–Yates loop over a `randbelow` oracle (`Below`).
- `random.choice` is an index oracle reduced modulo the number of neighbours.

Fitness is a function parameter `FitnessFn` of (parameter table, age, weight). The predicate `UnitRange` says it lies in [0, 1].

Modules:

| module | file | models |
|---|---|---|
| `Wrappers` | `wrappers.dfy` | `Option`, `Result` and `Outcome` (pass or fail with an error) |
| `Seqs` | `seqs.dfy` | sequence and multiset helpers: no duplicates, `Select`, `list.remove`, sums, unions, dict-style de-duplication |
| `Sorting` | `sorting.dfy` | stable sort of (item, key) pairs by key, which `sorted(..., key=itemgetter(1))` is |
| `Animals` | `animal.dfy` | species tables, instance counters, the animal and its rules |
| `Cells` | `cell.dfy` | terrain tables and the land cell |
| `Text` | `text.dfy` | `str.strip` and `str.splitlines` on line feeds |
| `IslandMap` | `island.dfy` | map parsing, the border check and the island |
| `BioSims` | `biosim.dfy` | feeding, procreation, aging, weight loss and death on one cell |
| `Migration` | `migration.dfy` | `migrate(cell)` over the land cells |
| `YearCycle` | `year.dfy` | one cell's turn of the year cycle, on the whole island |
| `Simulation` | `sim.dfy` | the simulation: construction, `add_population`, `run_year_cycle`, `year` |

Where the code calls something it does not define, the model takes the code's evident meaning:

- **`count_animals`, `del_animals` and `num_*`:** the counts are the lengths of the cells' lists, and the instance counters are kept as `Census`.
- **`has_moved`:** a field that starts false.
- **`land_cell_neighbors`:** an input giving positions among the land cells, each a different cell and named once.
- **`reset_animals`:** it clears the flag of every animal still in the cell.
- **`from_dict`:** it builds an animal from a record's species, age and weight, with the species' default table.

## Model

| member | source | states |
|---|---|---|
| `Animals.Animal.constructor` | src/biosim/animal.py:16-26 | a new animal takes the given weight, or the drawn birth weight when none is given; it takes the given age and species and starts unmoved; its own species' counter goes up by one and the other species' counter is unchanged |
| `Animals.Census.constructor` | src/biosim/animal.py:14 | both species' instance counters start at zero |
| `Animals.Census.Increment` | src/biosim/animal.py:29-31 | count_animal raises one species' counter by one and leaves the other species' counter as it was |
| `Animals.Census.Decrement` | src/biosim/animal.py:33-35 | subtract_animal lowers one species' counter by one and leaves the other species' counter as it was |
| `Animals.Animal.Aging` | src/biosim/animal.py:57-61 | age goes up by exactly one; only the age field may change, so the weight is untouched |
| `Animals.AfterWeightLoss` | src/biosim/animal.py:94-98 | with 0 <= eta <= 1 and a non-negative weight, the new weight is non-negative and never above the old one |
| `Animals.Animal.LoseWeight` | src/biosim/animal.py:94-98 | the weight becomes the old weight less eta times itself; only the weight may change |
| `Animals.Graze` | src/biosim/animal.py:176-191 | eating moves fodder into weight, so weight plus fodder is conserved; a non-negative fodder stays non-negative; the herbivore gains exactly the smaller of its appetite and the fodder there is |
| `Animals.EmptyPastureFeedsNobody` | src/biosim/animal.py:189-191 | a cell without fodder changes neither the weight nor the fodder |
| `Animals.Animal.EatFodder` | src/biosim/animal.py:176-191 | the herbivore's new weight and the cell's new fodder are the grazing outcome for an appetite of beta * F |
| `Animals.BirthOutcome` | src/biosim/animal.py:63-85 | a birth returns exactly the drawn newborn weight, which is below the mother's weight |
| `Animals.NoBirthBelowThreshold` | src/biosim/animal.py:68-69 | a mother lighter than zeta * (w_birth + sigma_birth) never gives birth, whatever the draws |
| `Animals.CertainBirth` | src/biosim/animal.py:70-71 | at birth probability 1 or more, a heavy enough mother gives birth whatever the Bernoulli draw, whenever the newborn is lighter than she is |
| `Animals.NoBirthWithoutChance` | src/biosim/animal.py:74-75 | at birth probability 0 or less there is no birth |
| `Animals.HeavyNewbornAborts` | src/biosim/animal.py:77-83 | a drawn newborn at least as heavy as its mother aborts the birth |
| `Animals.SmallHerdsDoNotBreed` | src/biosim/animal.py:67 | because the code subtracts 1 after multiplying by n_same, a mother with gamma * n_same <= 1 (at most five herbivores with the default gamma) never gives birth |
| `Animals.Animal.GiveBirth` | src/biosim/animal.py:63-85 | the result is the birth outcome for the mother's fitness and weight before the call; a birth lowers her weight by exactly xi times the newborn's weight, and no birth leaves it unchanged |
| `Animals.Animal.Fitness` | src/biosim/animal.py:124-132 | under the unit-range assumption a fitness lies in [0, 1] |
| `Animals.MigrationDrawn` | src/biosim/animal.py:87-92 | a table with mu <= 0 never migrates; a draw below 1 always migrates once mu * fitness reaches 1 |
| `Animals.Animal.Migrates` | src/biosim/animal.py:87-92 | on the animal's current fitness: with mu <= 0 and a non-negative draw it stays; a draw below 1 always moves once mu * fitness reaches 1 |
| `Animals.DeathDrawn` | src/biosim/animal.py:100-118 | an animal that survives has a positive weight, so a weight <= 0 always dies |
| `Animals.Animal.Death` | src/biosim/animal.py:100-118 | the result is the death rule on the current fitness and weight; a death lowers its species' counter by exactly one, and the other species' counter does not change |
| `Animals.NeverKillsTheFitter` | src/biosim/animal.py:252-254 | a prey at least as fit as the predator is never killed |
| `Animals.CertainKill` | src/biosim/animal.py:251-263 | a prey reached while the predator has eaten less than F, and at least DeltaPhiMax less fit, is killed |
| `Animals.KillWishes` | src/biosim/animal.py:252-263 | one kill decision per prey: a prey at least as fit as the predator is never wished for, and one at least DeltaPhiMax less fit always is |
| `Animals.HuntConsumptionGrows` | src/biosim/animal.py:265-268 | with non-negative prey weights, the weight eaten never decreases along the prey list |
| `Animals.SatedPredatorStops` | src/biosim/animal.py:251 | with non-negative prey weights, no prey after the first point where the weight eaten reaches F is killed |
| `Animals.ConsumedIsWeightOfKills` | src/biosim/animal.py:265-269 | the weight eaten is the total weight of the prey killed |
| `Animals.GainBounded` | src/biosim/animal.py:271-276 | with non-negative beta, F and weight eaten, a predator gains at least nothing and at most beta * F in one hunt |
| `Animals.ChoosePrey` | src/biosim/animal.py:247-269 | the loop's kills are the sorted prey picked out by the hunt, in their order, and its intake is the hunt's; the kills are some of the prey |
| `Animals.Animal.KillPrey` | src/biosim/animal.py:238-278 | the kills are an ordered sub-list of the prey as the hunt decides them, and the predator gains beta * min(consumed, F) |
| `Cells.DefaultFMax` | src/landscape.py:324-362 | every land kind ships a non-negative f_max, and the desert's is 0 |
| `Cells.TerrainTable.constructor` | src/landscape.py:328 | a terrain table has exactly one parameter, f_max |
| `Cells.TerrainTable.SetParams` | src/landscape.py:197-203 | the keys stay the same; every given key that is a parameter is overwritten and every other parameter is kept, so f_max becomes the given value or stays; a warning happens exactly when some given key is not a parameter |
| `Cells.SharedFMax` | src/landscape.py:205-207 | f_max is a property of the terrain kind: two cells sharing a table report the same f_max, the table's entry |
| `Cells.Cell.constructor` | src/landscape.py:182-187 | a new land cell starts with f_max of fodder and two empty lists |
| `Cells.Cell.IsEmpty` | src/landscape.py:314-321 | for a non-negative fodder, a cell is empty exactly when no herbivore, whatever its weight and appetite, gains anything or changes the fodder there |
| `Cells.Cell.AnimalCount` | src/landscape.py:250-284 | the number of animals is the number of herbivores plus the number of carnivores |
| `Cells.Cell.CountsSplit` | src/landscape.py:250-284 | the cell's animals are its herbivores followed by its carnivores: the count splits into the two species' counts, and the first num_herbs animals are exactly the herbivores |
| `Cells.Cell.AddAnimals` | src/landscape.py:221-231 | each list gets exactly the given animals of its own species, appended in input order; nothing else in the cell changes |
| `Cells.OfSpeciesSnoc` | src/landscape.py:227-231 | one more animal is appended to its own species' list only |
| `Cells.RemoveEachCorrect` | src/landscape.py:233-243 | removal succeeds exactly when each species' list holds every animal to remove, as often as it is named; it then takes out exactly those animals |
| `Cells.RemoveStops` | src/landscape.py:239-243 | once a removal has failed (ValueError), the later animals change nothing |
| `Cells.Cell.RemoveAnimals` | src/landscape.py:233-243 | the new lists and the success flag are those of list.remove applied to each animal in turn, stopping at the first missing one |
| `Seqs.RemoveFirstAt` | src/landscape.py:239-243 | list.remove of a present element cuts out exactly its first occurrence and keeps the rest in order |
| `Cells.RemovingResidents` | src/landscape.py:233-243 | removing animals that are residents always succeeds, takes out exactly those animals and leaves valid species lists |
| `Cells.ShuffleSteps` | src/landscape.py:245-248 | the shuffle keeps the length and the elements of the list |
| `Cells.Cell.RandomizeHerbs` | src/landscape.py:245-248 | the herbivore list becomes its Fisher–Yates shuffle under the given draws, a permutation of the old list; the cell stays valid |
| `Sorting.SortByKeyCorrect` | src/landscape.py:293-311 | sorting the fitness pairs orders them by key and permutes them, and it is stable: equal keys keep their order |
| `Cells.ByFitness` | src/landscape.py:286-312 | the sorted dictionary's keys are a permutation of the de-duplicated list, drawn from the list, in non-decreasing fitness or, for the reverse sort, non-increasing fitness |
| `Cells.ByFitnessSortedBy` | src/landscape.py:300-312 | sorting by fitness gives the same order as sorting by a table holding each animal's fitness, so the hunt can be stated on recorded fitnesses |
| `Cells.SortedPairsFacts` | src/landscape.py:293-311 | the sorted fitness dictionary is a permutation of the de-duplicated list, ordered, each key being that animal's fitness (negated for the reverse sort) |
| `Cells.Cell.SortedHerbivores` | src/landscape.py:300-312 | the result is a permutation of the herbivores, each counted once as the dictionary does, in non-decreasing fitness |
| `Cells.Cell.SortedCarnivores` | src/landscape.py:286-298 | the result is a permutation of the carnivores, each counted once, in non-increasing fitness |
| `Text.Trim` | src/landscape.py:99 | a stripped string is a middle slice of the string, cut only where dropped characters were, and neither starts nor ends with a dropped character |
| `Text.SplitJoins` | src/landscape.py:104 | splitting on line feeds loses nothing: joining the pieces gives the string back |
| `Text.SplitLinesJoins` | src/landscape.py:104 | splitlines keeps every character but the line feeds that end lines |
| `IslandMap.UniformMeansEqual` | src/landscape.py:100-102 | comparing each row length with the next one holds exactly when all rows have the same length |
| `IslandMap.ParseRows` | src/landscape.py:104-117 | parsing succeeds exactly when every character is W, L, H or D, and otherwise fails with the unknown-letter error; on success every character's terrain sits under its 1-based (row, column) key and no other key is present |
| `IslandMap.GridOrderCovers` | src/landscape.py:104-106 | the insertion order lists every key of the rows once, and nothing else |
| `IslandMap.ParsedUnique` | src/landscape.py:104-117 | the parsed landscape is determined by the rows |
| `IslandMap.MapFromStr` | src/landscape.py:85-119 | non-uniform stripped row lengths give exactly the row error, before any cell is built; uniform rows with an unknown letter give exactly the letter error; success happens exactly otherwise, and then the landscape is the parse of the rows |
| `IslandMap.LandCoords` | src/landscape.py:46-48 | the land keys are exactly the landscape's non-water keys; when the insertion order names each key once, so do they, and they keep that order |
| `Seqs.FilterKeepsOrder` | src/landscape.py:46-48 | picking out the elements that pass a test keeps their relative order in a list without duplicates |
| `IslandMap.MaxOf` | src/landscape.py:50-56 | every value is at most the maximum, and a non-empty list holds its maximum |
| `IslandMap.CheckBorderCells` | src/landscape.py:121-130 | the check passes exactly when no land key is in row 1, the last row, column 1 or the last column; otherwise it fails with the border error |
| `IslandMap.SetLandscapeParams` | src/landscape.py:30-38 | 'L' and 'H' update the lowland or highland table as set_params does and leave the other table unchanged; any other letter fails with the fixed-landscape error and changes neither |
| `IslandMap.NewCells` | src/landscape.py:46-48 | exactly the land keys get a cell; each cell is new, distinct, of its key's land terrain, with its kind's table, full of fodder and empty |
| `IslandMap.Island.constructor` | src/landscape.py:18-22 | the island's land order is the landscape's land keys, and each land cell is new, empty and holds its kind's f_max of fodder |
| `IslandMap.Island.FromMapStr` | src/landscape.py:18-22 | the row and letter errors happen exactly under MapFromStr's conditions; the border error happens exactly when the rows are uniform, every letter is known and the parse has land on its border; a success gives a new island whose landscape is the parse of the map, with water all round, new empty cells, and a cell at exactly the land keys |
| `BioSims.GrazingConserves` | src/biosim.py:128-130 | over the whole herd, grazing moves fodder into weight, so the total weight plus the fodder is conserved |
| `BioSims.GrazingBounds` | src/biosim.py:124-130 | the fodder stays between zero and its refill value, and each herbivore gains at least nothing and at most its appetite |
| `BioSims.GrazingStops` | src/biosim.py:129 | once the fodder is used up, no later herbivore gains anything |
| `BioSims.GrazeAfter` | src/biosim.py:128-130 | one new weight per herbivore that has grazed; its conservation, bounds and stopping are the three lemmas above |
| `BioSims.GrazeAll` | src/biosim.py:128-130 | the herd's new weights and the new fodder are those of GrazeAfter for the herbivores grazing in list order; only the fodder and the herbivores' weights change |
| `BioSims.Hunted` | src/biosim.py:133-134 | a carnivore's kills can always be removed, and removing them takes out exactly those herbivores and leaves the carnivores as they were |
| `BioSims.HuntOnce` | src/biosim.py:133-134 | one carnivore, with the fitness it had before its turn, hunts the herbivores sorted by their recorded fitness with its own row of draws; it kills exactly what HuntAfter picks, gains Gain of what it ate, and exactly its kills leave the cell; only this carnivore's weight changes |
| `BioSims.Strike` | src/biosim.py:133 | kill_prey(cell.sorted_herbivores): the kills and the intake are the hunt of the sorted herbivores, the kills are some of them, and only the predator's weight changes |
| `BioSims.HuntStep` | src/biosim.py:132-134 | one loop turn: carnivore j's turn joins the hunt record, its weight gain is recorded and every later carnivore keeps its weight |
| `BioSims.HuntAll` | src/biosim.py:132-135 | carnivore k hunts, with its fitness from before the hunt, the herbivores its predecessors left, and its kills leave before carnivore k + 1 hunts; each carnivore gains exactly Gain of what it ate; the kills are the turns' kills in order, distinct, and exactly the herbivores lost; the herbivores' weights and the carnivore list are unchanged |
| `BioSims.GrazeThenHunt` | src/biosim.py:128-135 | the herd grazes in list order as GrazeAfter says, then the carnivores hunt it turn by turn as HuntAll states, each gaining what it ate |
| `BioSims.BirthOutcomes` | src/biosim.py:147-157 | one give_birth outcome per mother: a birth yields that mother's own drawn newborn weight, lighter than she is, and a mother below the weight threshold never gives birth |
| `BioSims.Feeding` | src/biosim.py:118-135 | the fodder is refilled to f_max before anyone eats; the herd is shuffled by Fisher-Yates and grazes in that order as GrazeAfter says; the carnivores then hunt turn by turn as HuntAll states; the kills are distinct and exactly the herbivores lost; the carnivores stay and the cell stays valid |
| `BioSims.Born` | src/biosim.py:150-157 | each mother's turn yields at most one newborn |
| `BioSims.AfterBirths` | src/biosim/animal.py:77-81 | a mother without a birth keeps her weight; with a non-negative xi and a non-negative newborn weight a birth never makes her heavier |
| `BioSims.SmallHerdHasNoNewborns` | src/biosim.py:145-157 | a herd in which gamma * n_same is at most 1 has no newborns at all, whatever the draws |
| `BioSims.NewbornsLighter` | src/biosim.py:147-157 | every newborn is lighter than some mother was before the season |
| `BioSims.BirthTurn` | src/biosim.py:148-151 | a mother's give_birth and, for a birth, a new animal of her species with the drawn weight, age 0 and the default table, counted once |
| `BioSims.Breed` | src/biosim.py:147-151 | the newborns are exactly those the birth outcomes give, in order and new; the mothers' weights are those after births; the counter goes up by the number of newborns |
| `BioSims.BreedBoth` | src/biosim.py:143-157 | both loops count with n_herbs and n_carns taken before the season; the carnivores use the draws after the herbivores' |
| `BioSims.AddNewborns` | src/biosim.py:159 | the newborns are appended to their species' lists and the cell stays valid |
| `BioSims.Procreation` | src/biosim.py:137-161 | the counts used are those from before either loop; newborns join only after both loops, so they neither count nor give birth that year; each list gains exactly its newborns; the counters go up by the numbers born |
| `BioSims.AgingSeason` | src/biosim.py:203-204 | every animal of the cell is one year older |
| `BioSims.WeightLossSeason` | src/biosim.py:207-208 | every animal of the cell loses the fraction eta of its weight |
| `BioSims.DeathFlags` | src/biosim.py:213-215 | one death decision per animal; every animal that survives has a positive weight |
| `BioSims.DrawDeaths` | src/biosim.py:211-215 | the dead are exactly the animals whose death draw succeeded, in order; every survivor has a positive weight; each counter goes down by its species' dead |
| `BioSims.Bury` | src/biosim.py:217 | the dead are removed, exactly them, and every animal left has a positive weight |
| `BioSims.DeathSeason` | src/biosim.py:210-218 | the cell loses exactly the animals whose death was drawn; no remaining resident has a weight <= 0; the counters go down by the dead of each species |
| `Migration.Movers` | src/biosim.py:176-177 | one flag per animal; an animal that has already moved is never a mover, and neither is one whose mu is at most 0, for a non-negative draw and fitness in [0, 1] |
| `Migration.ChosenOnce` | src/biosim.py:178-179 | an animal is sent to some neighbour exactly when it is a mover, and then to only one neighbour |
| `Migration.Chosen` | src/biosim.py:179 | only movers are chosen, and no neighbour at or past the number of neighbours is ever picked |
| `Migration.SendTo` | src/biosim.py:180 | add_animals([animal]) on the chosen neighbour appends the animal to its species' list there |
| `Migration.MigrateLoop` | src/biosim.py:176-183 | each mover is appended to its chosen neighbour when there are neighbours; the code sets has_moved only for animals whose draw was true, and other flags stay as they were |
| `Migration.MoveOut` | src/biosim.py:175-183 | the migrated animals are the movers when the cell has a land neighbour, and none otherwise; each neighbour gains exactly the animals sent to it; every other cell keeps its lists |
| `Migration.TakeOut` | src/biosim.py:185 | the cell loses exactly the migrated animals |
| `Migration.ClearFlags` | src/biosim.py:186 | reset_animals clears the flag of every animal left in the cell; the animals that left keep their flag |
| `Cells.Cell.ResetAnimals` | src/biosim.py:186 | every animal in the cell ends unflagged, and only the flags change |
| `Migration.Leave` | src/biosim.py:185-186 | the migrated animals leave the cell, which keeps valid lists; the animals that stay are unflagged and the migrated ones stay flagged |
| `Migration.Depart` | src/biosim.py:175-183 | the first half of migrate on the island's lists: who moves, where each goes, and that nothing else changes |
| `Migration.Settle` | src/biosim.py:185-186 | after the movers leave, no animal on the island is lost or gained and every cell is valid |
| `Migration.Migrate` | src/biosim.py:163-186 | an animal leaves only if it had not moved, its draw was true and the cell has a land neighbour, and one without that flag is not among the migrated; it is appended to exactly one neighbour; the island's population is conserved; the cells other than this one and its neighbours are unchanged; every cell stays valid |
| `YearCycle.FeedPhase` | src/biosim.py:194 | feeding changes this cell only, and its residents lose exactly the killed herbivores |
| `YearCycle.BreedCell` | src/biosim.py:197 | procreation appends newborns, all new, to this cell's lists |
| `YearCycle.BreedPhase` | src/biosim.py:197 | procreation changes this cell only, and its newborns lived nowhere on the island before |
| `YearCycle.MovePhase` | src/biosim.py:200 | migration only moves animals between cells; the island stays consistent and the cells away from this one and its neighbours are unchanged |
| `YearCycle.DeathCell` | src/biosim.py:210-218 | the cell loses exactly its dead and keeps only positive weights |
| `YearCycle.DeathPhase` | src/biosim.py:210-218 | the death season changes this cell only; it loses exactly its dead and keeps only positive weights |
| `YearCycle.FeedStage` | src/biosim.py:194 | after feeding, the island holds its population less the killed, and no animal lives in two places |
| `YearCycle.BreedStage` | src/biosim.py:197 | after procreation, the island holds its population plus the newborns, and no animal lives in two places |
| `YearCycle.AutumnStage` | src/biosim.py:202-218 | after aging, weight loss and death, the island holds its population less the dead, and every animal left in the cell has a positive weight |
| `YearCycle.Spring` | src/biosim.py:193-197 | after feeding and procreation the island is consistent; its population less the killed is exactly its population before plus the newborns, who are new |
| `YearCycle.Autumn` | src/biosim.py:199-218 | after migration, aging, weight loss and death the island is consistent; it loses exactly the dead, and every animal left in the cell has a positive weight |
| `YearCycle.CellYear` | src/biosim.py:192-218 | after one cell's six seasons, in this order, no animal lives in two places; the island loses exactly the killed and the dead and gains exactly the newborns, so every resident lived on the island before or was born in this turn; every animal left in the cell has a positive weight |
| `Simulation.VisitCells` | src/biosim.py:192-218 | the island-wide invariants of the cell-by-cell loop: no animal lives in two places, and no one appears who did not live there or was not born |
| `Simulation.NumNamedSplit` | src/biosim.py:107-112 | every record builds an animal of one of the two species |
| `Simulation.BuildAnimals` | src/biosim.py:107-112 | one new, distinct animal per record, built from it, with any species other than "Herbivore" a carnivore; each species' counter goes up by the number of its records |
| `Simulation.FirstStray` | src/biosim.py:113 | the position of the first entry whose location is not a land cell: every earlier entry names a land cell |
| `Simulation.Landed` | src/biosim.py:113 | an entry's animals go to the cell at its location, with each species in its own list |
| `Simulation.LandedStep` | src/biosim.py:113 | one more entry appends its animals to its own location only |
| `Simulation.Welcome` | src/biosim.py:113 | add_animals on one land cell, the island staying consistent |
| `Simulation.AddEntry` | src/biosim.py:106-114 | an entry with a land location has its animals built, counted and appended to that cell only |
| `Simulation.StrayEntry` | src/biosim.py:106-113 | an entry with any other location has its animals built and counted before the lookup fails |
| `Simulation.PlaceAll` | src/biosim.py:106-114 | the loop places the entries up to the first stray one, each cell gaining exactly the animals of the entries naming it |
| `Simulation.AddEntries` | src/biosim.py:106-114 | the loop passes exactly when every location is a land cell; otherwise it stops at the first stray one, reporting a water location or a missing key |
| `Simulation.BioSim.AddPopulation` | src/biosim.py:100-116 | a non-list fails and changes nothing; otherwise each cell gains exactly the animals of the entries before the first stray one; that stray entry's animals are counted and its error returned; the counters grow by the animals built; the simulation stays valid |
| `Simulation.BioSim.constructor` | src/biosim.py:66-68 | a simulation of an island whose land cells are all empty starts at year 0 |
| `Simulation.BioSim.AddInitial` | src/biosim.py:66 | add_population(ini_pop) on a new simulation: a non-list fails with its error; a list passes exactly when every location is a land cell, and otherwise fails with the first stray location's error; success means every entry's animals sit in the cell at its location |
| `Simulation.BioSim.Populate` | src/biosim.py:66-68 | a new simulation of a built island at year 0 holding its initial population; it is built exactly when the population is a list whose every location is a land cell, and otherwise the error is the non-list error or the first stray location's |
| `Simulation.BioSim.FromMap` | src/biosim.py:52-68 | the row, letter and border errors happen exactly as Island(map) raises them and change no counter; for a map whose parse has water all round, the outcome is the population's: success exactly when it is a list whose locations are all land cells of the parse; a success is a new simulation of the parsed island holding the initial population at year 0 |
| `Simulation.BioSim.Create` | src/biosim.py:52-68 | a non-string map is refused before anything happens; no map means the default 3 × 3 map; otherwise the map errors and the population outcome are those of FromMap on the string |
| `Simulation.BioSim.NextYear` | src/biosim.py:220 | the year counter goes up by exactly one |
| `Simulation.BioSim.VisitAll` | src/biosim.py:192-218 | the island-wide invariants of visiting every land cell in land order: the simulation stays valid and no one appears who did not live there or was not born |
| `Simulation.BioSim.RunYearCycle` | src/biosim.py:188-220 | each call raises the year by exactly one and keeps the simulation valid; no animal lives in two places, and every resident was on the island before or was born that year |

## Left out

- **Plotting, simulate, update_pop_matrix, the reporting properties and the progress output.** `src/biosim/plotting.py`, `BioSim.simulate` and the plotting options of the constructor are left out, and so are `update_pop_matrix`, `herb_pop_matrix` and `carn_pop_matrix`. The reporting properties `animal_weights`, `animal_ages`, `animal_fitness` and `all_animals`/`all_herbivores`/`all_carnivores` are left out, as are the progress prints. They are display and file output.
- **`src/interface.py`** is not part of this model.
- **Seeds:** `random.seed` and `np.random.seed` are left out, because the draws are inputs.
- **Fitness:** the exact formula uses `np.exp` on floats. It is a parameter assumed to lie in [0, 1].
- **Floating point:** weights, fodder and probabilities are exact reals. Rounding is not modelled.
- **`np.random.choice` with p outside [0, 1]:** numpy raises a ValueError there, but the model draws `u < q`. The default tables keep every probability inside [0, 1].
- **`set_animal_parameters`:** it calls `Herbivore.set_params`/`Carnivore.set_params`, which are not part of this model, so every animal the simulation builds uses its species' default table.
- **Never-taken paths:** `Island.add_animals` is a no-op and is never called. `set_f_max`, `__repr__` and `__str__` touch an unused `_f_max`.
- **Dictionary keys:** `add_population`'s records are typed values. A missing "loc", "pop" or "species" key (a KeyError) cannot be expressed.
- **`death()`'s unbound-variable path:** it is unreachable, because `_death_prob` is always None on entry.
- **Terrain tables:** they are objects shared by all simulations. Their validity is a separate precondition, not part of `BioSim.Valid`.
- **Text:** `splitlines` is modelled for line feeds only, and `strip()` for ASCII whitespace only.
- **The year cycle runs cell by cell:** each cell runs all six seasons before the next cell starts, as the code does. An animal that migrates into a cell whose turn is still to come feeds, breeds, ages and may die again that year.
- **give_birth's probability:** `gamma * fitness * n_same - 1` is modelled as written, not as `gamma * fitness * (n_same - 1)`. `SmallHerdsDoNotBreed` and `SmallHerdHasNoNewborns` state the consequence.
- `Cells.Cell.ResetAnimals`: `reset_animals` is not defined in the code. It is modelled as clearing the flags of the cell's residents.
- `IslandMap.MaxOf`: `unique_rows[-1]` and `unique_cols[-1]` read the last element of a list built from a set. It is taken to be the largest value, as CPython's set of small integers iterates them in ascending order.
- `Cells.Cell.SortedHerbivores`: the method's own contract states the order and the permutation. Stability on ties is stated about the sort it uses (`Sorting.SortByKeyCorrect`).
- `Simulation.BioSim.Create`: it does not state that the default map yields an island; its outcome is stated for any map string in terms of that map's parse.
- `Simulation.BioSim.RunYearCycle`: it states the island-wide invariants: consistency, provenance and the year. Each season's exact effect on a cell is stated by the phase members (`BioSims.Feeding`, `BioSims.Procreation`, `Migration.Migrate`, `BioSims.DeathSeason`) and not composed across cells.
- `YearCycle.CellYear`, `YearCycle.Spring` and `YearCycle.Autumn`: they state who leaves and who joins the island, and the positive weights left in the cell. Each season's exact effect on the cell's lists stays on the phase members.
- `Simulation.VisitCells` and `Simulation.BioSim.VisitAll`: they state the island-wide invariants only, consistency and provenance. They do not state each cell's six seasons; `YearCycle.CellYear` and the phase members state one cell's turn.
