/**
 * The island: the terrain map parsed from its multi-line string, the check that only water
 * lies on the border, and the land cells the simulation runs over.
 */
module IslandMap {
  import opened Wrappers
  import opened Seqs
  import opened Text
  import opened Cells

  /** The ValueError and AttributeError cases raised while configuring an island. */
  datatype ConfigError =
    | NonUniformRows    // 'Map needs to have uniform row lengths!'
    | UnknownLetter     // 'Map strings need to be either W, L, H or D! ...'
    | LandOnBorder      // 'Only water cells may be border cells!'
    | FixedLandscape    // 'Only params in Lowland and Highland can be changed! ...'

  /** A 1-based (row, column) key of the landscape dictionary. */
  type Coord = (int, int)

  /** The terrain a map letter stands for; any letter other than W, L, H and D stands for none. */
  function TerrainOf(ch: char): Option<Terrain>
  {
    match ch
    case 'W' => Some(Water)
    case 'L' => Some(Lowland)
    case 'H' => Some(Highland)
    case 'D' => Some(Desert)
    case _ => None
  }

  /** [len(row.strip()) for row in map_str.strip(' ').splitlines()] */
  function RowLengths(mapStr: string): seq<nat>
  {
    var lines := SplitLines(Trim(mapStr, IsBlank));
    seq(|lines|, i requires 0 <= i < |lines| => |Strip(lines[i])|)
  }

  /** The check made on the row lengths: each row as long as the next. */
  predicate UniformRows(lengths: seq<nat>)
  {
    forall i :: 0 <= i < |lengths| - 1 ==> lengths[i] == lengths[i + 1]
  }

  /** Comparing neighbours is enough: uniform rows all have the same length. */
  lemma {:induction false} UniformMeansEqual(lengths: seq<nat>)
    ensures UniformRows(lengths) <==> forall i, j :: 0 <= i < j < |lengths| ==> lengths[i] == lengths[j]
  {
    if UniformRows(lengths) {
      forall i, j | 0 <= i < j < |lengths| ensures lengths[i] == lengths[j] {
        EqualUpTo(lengths, i, j);
      }
    }
  }

  lemma {:induction false} EqualUpTo(lengths: seq<nat>, i: nat, j: nat)
    requires UniformRows(lengths) && i <= j < |lengths|
    ensures lengths[i] == lengths[j]
    decreases j - i
  {
    if i < j {
      EqualUpTo(lengths, i + 1, j);
    }
  }

  /** The stripped rows whose characters become cells: [row.strip() for row in map_str.splitlines()]. */
  function GridRows(mapStr: string): seq<string>
  {
    var lines := SplitLines(mapStr);
    seq(|lines|, i requires 0 <= i < |lines| => Strip(lines[i]))
  }

  /** Whether key k names a character of the first n rows. */
  predicate InRows(rows: seq<string>, n: nat, k: Coord)
    requires n <= |rows|
  {
    1 <= k.0 <= n && 1 <= k.1 <= |rows[k.0 - 1]|
  }

  /** The terrain of the character under key k, if k names one. */
  function TerrainAt(rows: seq<string>, k: Coord): Option<Terrain>
  {
    if 1 <= k.0 <= |rows| && 1 <= k.1 <= |rows[k.0 - 1]| then TerrainOf(rows[k.0 - 1][k.1 - 1]) else None
  }

  /** Every character of every row is one of W, L, H and D. */
  ghost predicate AllLetters(rows: seq<string>)
  {
    forall k :: InRows(rows, |rows|, k) ==> TerrainAt(rows, k).Some?
  }

  /** Whether key k is among those the parser has inserted after c characters of row r + 1. */
  predicate Filled(rows: seq<string>, r: nat, c: nat, k: Coord)
    requires r <= |rows|
  {
    InRows(rows, r, k) || (k.0 == r + 1 && 1 <= k.1 <= c)
  }

  /** The keys of row r (1-based) for a row of the given length, left to right. */
  function RowCoords(r: int, length: nat): (s: seq<Coord>)
    ensures |s| == length && forall c :: 0 <= c < length ==> s[c] == (r, c + 1)
  {
    seq(length, c requires 0 <= c < length => (r, c + 1))
  }

  /** The keys of the first n rows in the order the parser inserts them: row by row, left to right. */
  function GridOrder(rows: seq<string>, n: nat): seq<Coord>
    requires n <= |rows|
  {
    if n == 0 then [] else GridOrder(rows, n - 1) + RowCoords(n, |rows[n - 1]|)
  }

  /** The insertion order lists every key of the first n rows once, and nothing else. */
  lemma {:induction false} GridOrderCovers(rows: seq<string>, n: nat)
    requires n <= |rows|
    ensures NoDup(GridOrder(rows, n))
    ensures forall k :: k in GridOrder(rows, n) <==> InRows(rows, n, k)
  {
    if n > 0 {
      GridOrderCovers(rows, n - 1);
      var front, row := GridOrder(rows, n - 1), RowCoords(n, |rows[n - 1]|);
      var s := front + row;
      forall i, j | 0 <= i < j < |s| ensures s[i] != s[j] {
        if j >= |front| && i < |front| {
          assert s[i] in front;
        }
      }
      forall k ensures k in s <==> InRows(rows, n, k) {
        if k in row {
          var c :| 0 <= c < |row| && row[c] == k;
        }
        if InRows(rows, n, k) && k.0 == n {
          assert row[k.1 - 1] == k;
        }
      }
    }
  }

  /** Finishing row r + 1 fills exactly the keys of the first r + 1 rows. */
  lemma FilledRow(rows: seq<string>, r: nat)
    requires r < |rows|
    ensures forall k :: Filled(rows, r, |rows[r]|, k) <==> Filled(rows, r + 1, 0, k)
  {
  }

  /** One more character of row r + 1 fills exactly one more key. */
  lemma FilledStep(rows: seq<string>, r: nat, c: nat)
    requires r < |rows|
    ensures forall k :: Filled(rows, r, c + 1, k) <==> Filled(rows, r, c, k) || k == (r + 1, c + 1)
  {
    forall k ensures Filled(rows, r, c + 1, k) <==> Filled(rows, r, c, k) || k == (r + 1, c + 1) {
      if k.0 == r + 1 && k.1 == c + 1 {
        assert k == (k.0, k.1);
      }
    }
  }

  lemma RowCoordsSnoc(r: int, c: nat)
    ensures RowCoords(r, c) + [(r, c + 1)] == RowCoords(r, c + 1)
  {
  }

  /** A parsed map: the landscape dictionary's entries, and its keys in insertion order. */
  datatype Landscape = Landscape(tiles: map<Coord, Terrain>, order: seq<Coord>)

  /** The landscape of a successful parse of rows: each character's terrain under its key. */
  ghost predicate ParsedFrom(land: Landscape, rows: seq<string>)
  {
    && (forall k :: k in land.tiles <==> InRows(rows, |rows|, k))
    && (forall k :: k in land.tiles ==> Some(land.tiles[k]) == TerrainAt(rows, k))
    && land.order == GridOrder(rows, |rows|)
  }

  /**
   * map_from_str: reject rows of different stripped lengths, then turn each character of
   * each stripped row into the terrain at its 1-based (row, column), rejecting any
   * character other than W, L, H and D.
   */
  method MapFromStr(mapStr: string) returns (res: Result<Landscape, ConfigError>)
    ensures res == Err(NonUniformRows) <==> !UniformRows(RowLengths(mapStr))
    ensures res == Err(UnknownLetter) <==> UniformRows(RowLengths(mapStr)) && !AllLetters(GridRows(mapStr))
    ensures res.Ok? <==> UniformRows(RowLengths(mapStr)) && AllLetters(GridRows(mapStr))
    ensures res.Ok? ==> ParsedFrom(res.value, GridRows(mapStr))
  {
    var rowLengths := RowLengths(mapStr);
    var i := 0;
    while i < |rowLengths| - 1
      invariant 0 <= i <= |rowLengths|
      invariant forall k :: 0 <= k < i && k < |rowLengths| - 1 ==> rowLengths[k] == rowLengths[k + 1]
    {
      if rowLengths[i] != rowLengths[i + 1] {
        return Err(NonUniformRows);
      }
      i := i + 1;
    }
    res := ParseRows(GridRows(mapStr));
  }

  /** The nested loops of map_from_str over the stripped rows. */
  method ParseRows(rows: seq<string>) returns (res: Result<Landscape, ConfigError>)
    ensures res.Ok? <==> AllLetters(rows)
    ensures res.Err? ==> res.error == UnknownLetter
    ensures res.Ok? ==> ParsedFrom(res.value, rows)
  {
    var tiles: map<Coord, Terrain> := map[];
    var order: seq<Coord> := [];
    var r := 0;
    while r < |rows|
      invariant 0 <= r <= |rows|
      invariant forall k :: k in tiles ==> Filled(rows, r, 0, k)
      invariant forall k :: Filled(rows, r, 0, k) ==> k in tiles
      invariant forall k :: k in tiles ==> Some(tiles[k]) == TerrainAt(rows, k)
      invariant order == GridOrder(rows, r)
    {
      var row := rows[r];
      var c := 0;
      while c < |row|
        invariant 0 <= c <= |row|
        invariant forall k :: k in tiles ==> Filled(rows, r, c, k)
        invariant forall k :: Filled(rows, r, c, k) ==> k in tiles
        invariant forall k :: k in tiles ==> Some(tiles[k]) == TerrainAt(rows, k)
        invariant order == GridOrder(rows, r) + RowCoords(r + 1, c)
      {
        var terrain := TerrainOf(row[c]);
        if terrain.None? {
          assert TerrainAt(rows, (r + 1, c + 1)).None?;
          return Err(UnknownLetter);
        }
        tiles := tiles[(r + 1, c + 1) := terrain.value];
        FilledStep(rows, r, c);
        RowCoordsSnoc(r + 1, c);
        order := order + [(r + 1, c + 1)];
        c := c + 1;
      }
      FilledRow(rows, r);
      r := r + 1;
    }
    return Ok(Landscape(tiles, order));
  }

  /** Whether key k holds a land tile (is_mainland). */
  predicate IsLand(land: Landscape, k: Coord)
  {
    k in land.tiles && land.tiles[k] != Water
  }

  /** The land keys of a landscape, as a set. */
  ghost function LandKeys(land: Landscape): set<Coord>
  {
    set k | k in land.tiles && IsLand(land, k)
  }

  /** The keys of get_land_cells, in the landscape's insertion order. */
  function LandCoords(land: Landscape): (r: seq<Coord>)
    ensures forall k :: k in r <==> k in land.order && IsLand(land, k)
    ensures NoDup(land.order) ==> NoDup(r) && InOrderOf(r, land.order)
  {
    FilterKeepsOrder(land.order, LandTest(land));
    Filter(land.order, LandTest(land))
  }

  /** is_mainland as a test on keys. */
  function LandTest(land: Landscape): (keep: Coord -> bool)
    ensures forall k :: keep(k) == IsLand(land, k)
  {
    k => IsLand(land, k)
  }

  /** The largest of the values, which is what unique_rows[-1] and unique_cols[-1] read. */
  function MaxOf(s: seq<int>): (m: int)
    ensures forall i :: 0 <= i < |s| ==> s[i] <= m
    ensures |s| > 0 ==> m in s
  {
    if |s| == 0 then 0
    else if |s| == 1 then s[0]
    else
      var m := MaxOf(s[..|s| - 1]);
      assert s[..|s| - 1][|s| - 2] == s[|s| - 2];
      if s[|s| - 1] > m then s[|s| - 1] else m
  }

  /** Row 1, the last row, column 1 and the last column form the border. */
  predicate OnBorder(k: Coord, lastRow: int, lastCol: int)
  {
    k.0 == 1 || k.0 == lastRow || k.1 == 1 || k.1 == lastCol
  }

  /** The island's invariant that only water lies on its border. */
  ghost predicate BorderIsWater(land: Landscape)
  {
    var lastRow, lastCol := MaxOf(Firsts(land.order)), MaxOf(Seconds(land.order));
    forall k :: IsLand(land, k) && k in land.order ==> !OnBorder(k, lastRow, lastCol)
  }

  /** check_border_cells: fail on the first land key on the border. */
  method CheckBorderCells(land: seq<Coord>, lastRow: int, lastCol: int) returns (res: Outcome<ConfigError>)
    ensures res == Pass <==> forall i :: 0 <= i < |land| ==> !OnBorder(land[i], lastRow, lastCol)
    ensures res.Fail? ==> res.error == LandOnBorder
  {
    var i := 0;
    while i < |land|
      invariant 0 <= i <= |land|
      invariant forall j :: 0 <= j < i ==> !OnBorder(land[j], lastRow, lastCol)
    {
      var (row, col) := land[i];
      if row == 1 || row == lastRow || col == 1 || col == lastCol {
        return Fail(LandOnBorder);
      }
      i := i + 1;
    }
    return Pass;
  }

  /**
   * set_landscape_params: 'L' and 'H' update the Lowland and Highland tables as set_params
   * does; any other letter is an AttributeError and changes nothing.
   */
  method SetLandscapeParams(tables: Tables, landscape: string, params: map<string, real>)
    returns (res: Outcome<ConfigError>)
    requires tables.lowland != tables.highland
    modifies tables.lowland, tables.highland
    ensures res.Pass? <==> landscape == "L" || landscape == "H"
    ensures res.Fail? ==> res.error == FixedLandscape
    ensures var changed := if landscape == "L" then tables.lowland else tables.highland;
            res.Pass? ==>
              changed.params.Keys == old(changed.params).Keys &&
              forall k :: k in changed.params ==>
                changed.params[k] == if k in params then params[k] else old(changed.params)[k]
    ensures landscape != "L" ==> unchanged(tables.lowland)
    ensures landscape != "H" ==> unchanged(tables.highland)
  {
    if landscape == "L" {
      var _ := tables.lowland.SetParams(params);
    } else if landscape == "H" {
      var _ := tables.highland.SetParams(params);
    } else {
      return Fail(FixedLandscape);
    }
    return Pass;
  }

  /** The island: its landscape and its land cells, each a Cell object of its own. */
  class Island {
    const landscape: Landscape
    const tables: Tables
    /** get_land_cells: the cell of each land key. */
    const landCells: map<Coord, Cell>
    /** The order in which the land cells are visited: the landscape's order, water left out. */
    const landOrder: seq<Coord>

    /** What never changes once the island is built: a distinct cell for each land key, of its key's terrain. */
    ghost predicate Shape()
    {
      && (forall k :: k in landCells <==> IsLand(landscape, k))
      && (forall k :: k in landCells ==> landscape.tiles[k] == landCells[k].terrain)
      && (forall k :: k in landCells ==> landCells[k].table == tables.For(landCells[k].terrain))
      && (forall k, k' :: k in landCells && k' in landCells && k != k' ==> landCells[k] != landCells[k'])
      && NoDup(landOrder)
      && (forall k :: k in landOrder <==> k in landCells)
    }

    ghost predicate Valid()
      reads this, tables.lowland, tables.highland, tables.desert, landCells.Values
    {
      && tables.Valid()
      && Shape()
      && (forall k :: k in landCells ==> landCells[k].Valid())
    }

    /** The cells of a parsed landscape, each new, empty and holding its kind's f_max of fodder. */
    constructor (landscape: Landscape, tables: Tables)
      requires tables.Valid() && NoDup(landscape.order)
      requires forall k :: k in landscape.tiles <==> k in landscape.order
      ensures Valid()
      ensures this.landscape == landscape && this.tables == tables
      ensures landOrder == LandCoords(landscape)
      ensures forall k :: k in landCells ==> fresh(landCells[k])
      ensures forall k :: k in landCells ==>
        landCells[k].fodder == tables.For(landCells[k].terrain).FMax() &&
        landCells[k].herbivores == [] && landCells[k].carnivores == []
    {
      var order := LandCoords(landscape);
      var cells := NewCells(landscape, tables, order);
      this.landscape := landscape;
      this.tables := tables;
      landCells := cells;
      landOrder := order;
    }

    /**
     * Island(map_str): parse the map, then reject land on the border. On success the island
     * holds a new cell for each land key.
     */
    static method FromMapStr(mapStr: string, tables: Tables) returns (res: Result<Island, ConfigError>)
      requires tables.Valid()
      ensures res == Err(NonUniformRows) <==> !UniformRows(RowLengths(mapStr))
      ensures res == Err(UnknownLetter) <==> UniformRows(RowLengths(mapStr)) && !AllLetters(GridRows(mapStr))
      ensures res == Err(LandOnBorder) <==>
        && UniformRows(RowLengths(mapStr)) && AllLetters(GridRows(mapStr))
        && forall land :: ParsedFrom(land, GridRows(mapStr)) ==> !BorderIsWater(land)
      ensures res.Err? ==> res.error != FixedLandscape
      ensures res.Ok? ==>
        fresh(res.value) && res.value.Valid() && res.value.tables == tables &&
        ParsedFrom(res.value.landscape, GridRows(mapStr)) && BorderIsWater(res.value.landscape)
      ensures res.Ok? ==> res.value.landCells.Keys == LandKeys(res.value.landscape)
      ensures res.Ok? ==> forall k :: k in res.value.landCells ==>
        fresh(res.value.landCells[k]) && res.value.landCells[k].herbivores == [] && res.value.landCells[k].carnivores == []
    {
      var parsed := MapFromStr(mapStr);
      if parsed.Err? {
        return Err(parsed.error);
      }
      var land := parsed.value;
      var rows := GridRows(mapStr);
      GridOrderCovers(rows, |rows|);
      var coords := LandCoords(land);
      var lastRow, lastCol := MaxOf(Firsts(land.order)), MaxOf(Seconds(land.order));
      var check := CheckBorderCells(coords, lastRow, lastCol);
      if check.Fail? {
        ParsedUnique(land, rows);
        return Err(LandOnBorder);
      }
      var island := new Island(land, tables);
      return Ok(island);
    }
  }

  /** A new empty cell for each land key, as get_land_cells collects them. */
  method NewCells(landscape: Landscape, tables: Tables, order: seq<Coord>) returns (cells: map<Coord, Cell>)
    requires tables.Valid() && NoDup(order)
    requires forall k :: k in order ==> IsLand(landscape, k)
    ensures forall k :: k in cells <==> k in order
    ensures forall k :: k in cells ==> fresh(cells[k])
    ensures forall k :: k in cells ==>
      IsLand(landscape, k) && landscape.tiles[k] == cells[k].terrain && cells[k].table == tables.For(cells[k].terrain) &&
      cells[k].Valid() && cells[k].fodder == cells[k].table.FMax() &&
      cells[k].herbivores == [] && cells[k].carnivores == []
    ensures forall k, k' :: k in cells && k' in cells && k != k' ==> cells[k] != cells[k']
  {
    cells := map[];
    var i := 0;
    while i < |order|
      invariant 0 <= i <= |order|
      invariant forall k :: k in cells <==> k in order[..i]
      invariant forall k :: k in cells ==> fresh(cells[k])
      invariant forall k :: k in cells ==>
        IsLand(landscape, k) && landscape.tiles[k] == cells[k].terrain && cells[k].table == tables.For(cells[k].terrain) &&
        cells[k].Valid() && cells[k].fodder == cells[k].table.FMax() &&
        cells[k].herbivores == [] && cells[k].carnivores == []
      invariant forall k, k' :: k in cells && k' in cells && k != k' ==> cells[k] != cells[k']
    {
      var k := order[i];
      assert k in order;
      var terrain := landscape.tiles[k];
      var cell := new Cell(terrain, tables.For(terrain));
      assert order[..i + 1] == order[..i] + [k];
      assert k !in cells by {
        assert forall j :: 0 <= j < i ==> order[j] != k;
      }
      cells := cells[k := cell];
      i := i + 1;
    }
    assert order[..i] == order;
  }

  /** A parse result is determined by its rows. */
  lemma ParsedUnique(land: Landscape, rows: seq<string>)
    requires ParsedFrom(land, rows)
    ensures forall other :: ParsedFrom(other, rows) ==> other == land
  {
    forall other | ParsedFrom(other, rows) ensures other == land {
      assert other.tiles == land.tiles;
    }
  }
}
