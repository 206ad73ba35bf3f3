/** The periodic-table view: the fixed 10 x 18 grid of atomic numbers, where
    each tile is placed, the tile colour of each category, the mock
    applications attached to every element, and the index of loaded data. */
module TableLayout {
  import opened Collections
  import opened Text
  import opened Elements

  // ---------------------------------------------------------------------
  // The grid

  /** One cell of the layout: an atomic number, an empty cell (`0`), or the
      lanthanide (`"*"`) and actinide (`"**"`) markers. */
  datatype Cell = Num(n: int) | Blank | Star | DoubleStar

  const Rows: nat := 10
  const Cols: nat := 18

  /** The standard layout, row by row; the lanthanides and actinides sit
      in rows 8 and 9, after an empty row 7. */
  const Layout: seq<seq<Cell>> := [
    [Num(1), Blank, Blank, Blank, Blank, Blank, Blank, Blank, Blank, Blank, Blank, Blank, Blank, Blank, Blank, Blank, Blank, Num(2)],
    [Num(3), Num(4), Blank, Blank, Blank, Blank, Blank, Blank, Blank, Blank, Blank, Blank, Num(5), Num(6), Num(7), Num(8), Num(9), Num(10)],
    [Num(11), Num(12), Blank, Blank, Blank, Blank, Blank, Blank, Blank, Blank, Blank, Blank, Num(13), Num(14), Num(15), Num(16), Num(17), Num(18)],
    [Num(19), Num(20), Num(21), Num(22), Num(23), Num(24), Num(25), Num(26), Num(27), Num(28), Num(29), Num(30), Num(31), Num(32), Num(33), Num(34), Num(35), Num(36)],
    [Num(37), Num(38), Num(39), Num(40), Num(41), Num(42), Num(43), Num(44), Num(45), Num(46), Num(47), Num(48), Num(49), Num(50), Num(51), Num(52), Num(53), Num(54)],
    [Num(55), Num(56), Star, Num(72), Num(73), Num(74), Num(75), Num(76), Num(77), Num(78), Num(79), Num(80), Num(81), Num(82), Num(83), Num(84), Num(85), Num(86)],
    [Num(87), Num(88), DoubleStar, Num(104), Num(105), Num(106), Num(107), Num(108), Num(109), Num(110), Num(111), Num(112), Num(113), Num(114), Num(115), Num(116), Num(117), Num(118)],
    [Blank, Blank, Blank, Blank, Blank, Blank, Blank, Blank, Blank, Blank, Blank, Blank, Blank, Blank, Blank, Blank, Blank, Blank],
    [Blank, Blank, Star, Num(57), Num(58), Num(59), Num(60), Num(61), Num(62), Num(63), Num(64), Num(65), Num(66), Num(67), Num(68), Num(69), Num(70), Num(71)],
    [Blank, Blank, DoubleStar, Num(89), Num(90), Num(91), Num(92), Num(93), Num(94), Num(95), Num(96), Num(97), Num(98), Num(99), Num(100), Num(101), Num(102), Num(103)]
  ]

  predicate InGrid(r: int, c: int) {
    0 <= r < Rows && 0 <= c < Cols
  }

  /** The cell at row `r`, column `c`. */
  function At(r: int, c: int): Cell
    requires InGrid(r, c)
  {
    LayoutShape();
    Layout[r][c]
  }

  lemma LayoutShape()
    ensures Shaped(Layout)
  {
  }

  /** Where the table puts element `n`: its period row and group column,
      with lanthanides and actinides in rows 8 and 9 from column 3. */
  function Home(n: int): (rc: (int, int))
    ensures 1 <= n <= 118 <==> InGrid(rc.0, rc.1)
  {
    if n < 1 || n > 118 then (-1, -1)
    else if n == 1 then (0, 0)
    else if n == 2 then (0, 17)
    else if n <= 4 then (1, n - 3)
    else if n <= 10 then (1, n + 7)
    else if n <= 12 then (2, n - 11)
    else if n <= 18 then (2, n - 1)
    else if n <= 36 then (3, n - 19)
    else if n <= 54 then (4, n - 37)
    else if n <= 56 then (5, n - 55)
    else if n <= 71 then (8, n - 54)
    else if n <= 86 then (5, n - 69)
    else if n <= 88 then (6, n - 87)
    else if n <= 103 then (9, n - 86)
    else (6, n - 101)
  }

  /** Each row of the layout in closed form. */
  lemma RowForms()
    ensures forall c :: 0 <= c < Cols ==> Layout[0][c] == (if c == 0 then Num(1) else if c == 17 then Num(2) else Blank)
    ensures forall c :: 0 <= c < Cols ==> Layout[1][c] == (if c < 2 then Num(c + 3) else if c < 12 then Blank else Num(c - 7))
    ensures forall c :: 0 <= c < Cols ==> Layout[2][c] == (if c < 2 then Num(c + 11) else if c < 12 then Blank else Num(c + 1))
    ensures forall c :: 0 <= c < Cols ==> Layout[3][c] == Num(c + 19)
    ensures forall c :: 0 <= c < Cols ==> Layout[4][c] == Num(c + 37)
    ensures forall c :: 0 <= c < Cols ==> Layout[5][c] == (if c < 2 then Num(c + 55) else if c == 2 then Star else Num(c + 69))
    ensures forall c :: 0 <= c < Cols ==> Layout[6][c] == (if c < 2 then Num(c + 87) else if c == 2 then DoubleStar else Num(c + 101))
    ensures forall c :: 0 <= c < Cols ==> Layout[7][c] == Blank
    ensures forall c :: 0 <= c < Cols ==> Layout[8][c] == (if c < 2 then Blank else if c == 2 then Star else Num(c + 54))
    ensures forall c :: 0 <= c < Cols ==> Layout[9][c] == (if c < 2 then Blank else if c == 2 then DoubleStar else Num(c + 86))
  {
  }

  /** Every atomic number 1..118 sits in the cell `Home` names. */
  lemma HomeHoldsNumber(n: int)
    requires 1 <= n <= 118
    ensures At(Home(n).0, Home(n).1) == Num(n)
  {
    RowForms();
  }

  /** A numbered cell holds a number in 1..118 whose home it is; so every
      number appears in exactly one cell. */
  lemma CellIsHome(r: int, c: int)
    requires InGrid(r, c) && At(r, c).Num?
    ensures 1 <= At(r, c).n <= 118
    ensures Home(At(r, c).n) == (r, c)
  {
    RowForms();
  }

  /** Each of 1..118 appears once and nothing else appears. */
  lemma EachNumberOnce(n: int, r1: int, c1: int, r2: int, c2: int)
    requires InGrid(r1, c1) && InGrid(r2, c2)
    requires At(r1, c1) == Num(n) && At(r2, c2) == Num(n)
    ensures r1 == r2 && c1 == c2 && 1 <= n <= 118
  {
    CellIsHome(r1, c1);
    CellIsHome(r2, c2);
  }

  // ---------------------------------------------------------------------
  // Tiles

  /** A tile: the cell's atomic number, the element shown, its grid cell
      and its colour. */
  datatype Tile = Tile(number: int, element: Element, row: int, col: int, color: int)

  /** `startX + col * spacing` with `startX = -8.5`, `spacing = 1`. */
  function TileX(t: Tile): real { -8.5 + t.col as real }

  /** `startY - row * spacing` with `startY = 5`. */
  function TileY(t: Tile): real { 5.0 - t.row as real }

  /** Row-major order of cells. */
  predicate Before(r1: int, c1: int, r2: int, c2: int) {
    r1 < r2 || (r1 == r2 && c1 < c2)
  }

  /** A grid of `Rows` rows of `Cols` cells. */
  predicate Shaped(g: seq<seq<Cell>>) {
    |g| == Rows && forall r :: 0 <= r < Rows ==> |g[r]| == Cols
  }

  /** A tile for the cell if it holds a number whose element was loaded;
      empty cells, the markers and missing elements give none. */
  function CellTile(g: seq<seq<Cell>>, data: map<int, Element>, r: int, c: int): (ts: seq<Tile>)
    requires Shaped(g) && InGrid(r, c)
    ensures |ts| <= 1
    ensures |ts| == 1 <==> g[r][c].Num? && g[r][c].n in data
  {
    match g[r][c]
    case Num(n) =>
      if n in data then [Tile(n, data[n], r, c, CategoryColor(data[n].category))] else []
    case _ => []
  }

  /** A tile of `data` drawn at its own cell of `g`. */
  predicate Placed(g: seq<seq<Cell>>, data: map<int, Element>, t: Tile)
    requires Shaped(g)
  {
    InGrid(t.row, t.col) && g[t.row][t.col] == Num(t.number) && t.number in data
    && t.element == data[t.number] && t.color == CategoryColor(t.element.category)
  }

  /** A numbered cell of `g` whose element is loaded. */
  predicate Filled(g: seq<seq<Cell>>, data: map<int, Element>, r: int, c: int)
    requires Shaped(g)
  {
    InGrid(r, c) && g[r][c].Num? && g[r][c].n in data
  }

  /** The inner loop: columns `c..17` of row `r`. */
  function RowTiles(g: seq<seq<Cell>>, data: map<int, Element>, r: int, c: nat): (ts: seq<Tile>)
    requires Shaped(g) && 0 <= r < Rows && c <= Cols
    ensures forall i :: 0 <= i < |ts| ==> Placed(g, data, ts[i]) && ts[i].row == r && c <= ts[i].col
    ensures forall i, j :: 0 <= i < j < |ts| ==> ts[i].col < ts[j].col
    ensures forall k :: c <= k && Filled(g, data, r, k) ==> exists i :: 0 <= i < |ts| && ts[i].col == k
    decreases Cols - c
  {
    if c == Cols then []
    else
      var here := CellTile(g, data, r, c);
      var rest := RowTiles(g, data, r, c + 1);
      var ts := here + rest;
      RowTilesStep(g, data, r, c, here, rest);
      ts
  }

  lemma RowTilesStep(g: seq<seq<Cell>>, data: map<int, Element>, r: int, c: nat, here: seq<Tile>, rest: seq<Tile>)
    requires Shaped(g) && 0 <= r < Rows && c < Cols
    requires here == CellTile(g, data, r, c)
    requires forall i :: 0 <= i < |rest| ==> Placed(g, data, rest[i]) && rest[i].row == r && c + 1 <= rest[i].col
    requires forall i, j :: 0 <= i < j < |rest| ==> rest[i].col < rest[j].col
    requires forall k :: c + 1 <= k && Filled(g, data, r, k) ==> exists i :: 0 <= i < |rest| && rest[i].col == k
    ensures forall i :: 0 <= i < |here + rest| ==> Placed(g, data, (here + rest)[i]) && (here + rest)[i].row == r && c <= (here + rest)[i].col
    ensures forall i, j :: 0 <= i < j < |here + rest| ==> (here + rest)[i].col < (here + rest)[j].col
    ensures forall k :: c <= k && Filled(g, data, r, k) ==> exists i :: 0 <= i < |here + rest| && (here + rest)[i].col == k
  {
    var ts := here + rest;
    forall k | c <= k && Filled(g, data, r, k) ensures exists i :: 0 <= i < |ts| && ts[i].col == k {
      if k == c {
        assert ts[0].col == k;
      } else {
        var i :| 0 <= i < |rest| && rest[i].col == k;
        assert ts[|here| + i] == rest[i];
      }
    }
  }

  /** The outer loop: rows `r..9`. */
  function GridTiles(g: seq<seq<Cell>>, data: map<int, Element>, r: nat): (ts: seq<Tile>)
    requires Shaped(g) && r <= Rows
    ensures forall i :: 0 <= i < |ts| ==> Placed(g, data, ts[i]) && r <= ts[i].row
    ensures forall i, j :: 0 <= i < j < |ts| ==> Before(ts[i].row, ts[i].col, ts[j].row, ts[j].col)
    ensures forall q, k :: r <= q && Filled(g, data, q, k) ==>
      exists i :: 0 <= i < |ts| && ts[i].row == q && ts[i].col == k
    decreases Rows - r
  {
    if r == Rows then []
    else
      var here := RowTiles(g, data, r, 0);
      var rest := GridTiles(g, data, r + 1);
      GridTilesStep(g, data, r, here, rest);
      here + rest
  }

  lemma GridTilesStep(g: seq<seq<Cell>>, data: map<int, Element>, r: nat, here: seq<Tile>, rest: seq<Tile>)
    requires Shaped(g) && r < Rows
    requires forall i :: 0 <= i < |here| ==> Placed(g, data, here[i]) && here[i].row == r
    requires forall i, j :: 0 <= i < j < |here| ==> here[i].col < here[j].col
    requires forall k :: Filled(g, data, r, k) ==> exists i :: 0 <= i < |here| && here[i].col == k
    requires forall i :: 0 <= i < |rest| ==> Placed(g, data, rest[i]) && r + 1 <= rest[i].row
    requires forall i, j :: 0 <= i < j < |rest| ==> Before(rest[i].row, rest[i].col, rest[j].row, rest[j].col)
    requires forall q, k :: r + 1 <= q && Filled(g, data, q, k) ==>
      exists i :: 0 <= i < |rest| && rest[i].row == q && rest[i].col == k
    ensures forall i :: 0 <= i < |here + rest| ==> Placed(g, data, (here + rest)[i]) && r <= (here + rest)[i].row
    ensures forall i, j :: 0 <= i < j < |here + rest| ==>
      Before((here + rest)[i].row, (here + rest)[i].col, (here + rest)[j].row, (here + rest)[j].col)
    ensures forall q, k :: r <= q && Filled(g, data, q, k) ==>
      exists i :: 0 <= i < |here + rest| && (here + rest)[i].row == q && (here + rest)[i].col == k
  {
    var ts := here + rest;
    forall i, j | 0 <= i < j < |ts| ensures Before(ts[i].row, ts[i].col, ts[j].row, ts[j].col) {
      if j < |here| {
        assert ts[i] == here[i] && ts[j] == here[j];
      } else if i < |here| {
        assert ts[i] == here[i] && ts[j] == rest[j - |here|];
      } else {
        assert ts[i] == rest[i - |here|] && ts[j] == rest[j - |here|];
      }
    }
    forall q, k | r <= q && Filled(g, data, q, k)
      ensures exists i :: 0 <= i < |ts| && ts[i].row == q && ts[i].col == k
    {
      if q == r {
        var i :| 0 <= i < |here| && here[i].col == k;
        assert ts[i] == here[i];
      } else {
        var i :| 0 <= i < |rest| && rest[i].row == q && rest[i].col == k;
        assert ts[|here| + i] == rest[i];
      }
    }
  }

  /** A grid with the standard layout's defining property for a placement
      `home`: every numbered cell holds some 1..118 at that number's home,
      and every 1..118 is at its home. */
  predicate Standard(g: seq<seq<Cell>>, home: int -> (int, int)) {
    Shaped(g) && CellsAtHome(g, home) && HomesHold(g, home)
  }

  predicate CellsAtHome(g: seq<seq<Cell>>, home: int -> (int, int))
    requires Shaped(g)
  {
    forall r, c :: 0 <= r < Rows && 0 <= c < Cols && g[r][c].Num? ==> 1 <= g[r][c].n <= 118 && home(g[r][c].n) == (r, c)
  }

  predicate HomesHold(g: seq<seq<Cell>>, home: int -> (int, int))
    requires Shaped(g)
  {
    forall n :: 1 <= n <= 118 ==> InGrid(home(n).0, home(n).1) && g[home(n).0][home(n).1] == Num(n)
  }

  lemma LayoutIsStandard()
    ensures Standard(Layout, Home)
  {
    LayoutShape();
    forall r, c | 0 <= r < Rows && 0 <= c < Cols && Layout[r][c].Num?
      ensures 1 <= Layout[r][c].n <= 118 && Home(Layout[r][c].n) == (r, c)
    {
      CellIsHome(r, c);
    }
    forall n | 1 <= n <= 118 ensures InGrid(Home(n).0, Home(n).1) && Layout[Home(n).0][Home(n).1] == Num(n) {
      HomeHoldsNumber(n);
    }
  }

  /** In a grid whose numbered cells sit at their homes, the scan gives at
      most one tile per number. */
  lemma ScanDistinct(g: seq<seq<Cell>>, home: int -> (int, int), data: map<int, Element>, ts: seq<Tile>)
    requires Shaped(g) && CellsAtHome(g, home)
    requires forall i :: 0 <= i < |ts| ==> Placed(g, data, ts[i])
    requires forall i, j :: 0 <= i < j < |ts| ==> Before(ts[i].row, ts[i].col, ts[j].row, ts[j].col)
    ensures forall i :: 0 <= i < |ts| ==> 1 <= ts[i].number <= 118 && (ts[i].row, ts[i].col) == home(ts[i].number)
    ensures forall i, j :: 0 <= i < |ts| && 0 <= j < |ts| && ts[i].number == ts[j].number ==> i == j
  {
    forall i | 0 <= i < |ts| ensures 1 <= ts[i].number <= 118 && (ts[i].row, ts[i].col) == home(ts[i].number) {
      assert Placed(g, data, ts[i]);
    }
  }

  /** What a full scan of `g` guarantees about its tiles `ts`: each is at
      its own cell, they come in row-major order, and every filled cell has
      one. */
  ghost predicate Scanned(g: seq<seq<Cell>>, data: map<int, Element>, ts: seq<Tile>)
    requires Shaped(g)
  {
    (forall i :: 0 <= i < |ts| ==> Placed(g, data, ts[i]))
    && (forall i, j :: 0 <= i < j < |ts| ==> Before(ts[i].row, ts[i].col, ts[j].row, ts[j].col))
    && (forall q, k :: Filled(g, data, q, k) ==> exists i :: 0 <= i < |ts| && ts[i].row == q && ts[i].col == k)
  }

  lemma GridTilesScanned(g: seq<seq<Cell>>, data: map<int, Element>)
    requires Shaped(g)
    ensures Scanned(g, data, GridTiles(g, data, 0))
  {
    var ts := GridTiles(g, data, 0);
    forall q, k | Filled(g, data, q, k) ensures exists i :: 0 <= i < |ts| && ts[i].row == q && ts[i].col == k {
      assert 0 <= q;
    }
  }

  /** In a standard grid, a scan gives each loaded 1..118 exactly one
      tile, at its home cell. */
  lemma ScanPlacesOnce(g: seq<seq<Cell>>, home: int -> (int, int), data: map<int, Element>, ts: seq<Tile>, n: int)
    requires Standard(g, home) && Scanned(g, data, ts)
    requires 1 <= n <= 118 && n in data
    ensures exists i :: 0 <= i < |ts| && ts[i].number == n
    ensures forall i :: 0 <= i < |ts| && ts[i].number == n ==> (ts[i].row, ts[i].col) == home(n) && ts[i].element == data[n]
    ensures forall i, j :: 0 <= i < |ts| && 0 <= j < |ts| && ts[i].number == ts[j].number ==> i == j
  {
    ScanDistinct(g, home, data, ts);
    var rc := home(n);
    assert g[rc.0][rc.1] == Num(n);
    assert Filled(g, data, rc.0, rc.1);
    var i :| 0 <= i < |ts| && ts[i].row == rc.0 && ts[i].col == rc.1;
    assert Placed(g, data, ts[i]);
  }

  /** In a standard grid, the full scan gives each loaded 1..118 exactly
      one tile, at its home cell, and no two tiles share a number. */
  lemma PlacesOnceIn(g: seq<seq<Cell>>, home: int -> (int, int), data: map<int, Element>, n: int)
    requires Standard(g, home)
    requires 1 <= n <= 118 && n in data
    ensures exists i :: 0 <= i < |GridTiles(g, data, 0)| && GridTiles(g, data, 0)[i].number == n
    ensures forall i :: 0 <= i < |GridTiles(g, data, 0)| && GridTiles(g, data, 0)[i].number == n ==>
      (GridTiles(g, data, 0)[i].row, GridTiles(g, data, 0)[i].col) == home(n)
      && TileX(GridTiles(g, data, 0)[i]) == -8.5 + home(n).1 as real
      && TileY(GridTiles(g, data, 0)[i]) == 5.0 - home(n).0 as real
      && GridTiles(g, data, 0)[i].element == data[n]
    ensures forall i, j ::
      (0 <= i < |GridTiles(g, data, 0)| && 0 <= j < |GridTiles(g, data, 0)|
       && GridTiles(g, data, 0)[i].number == GridTiles(g, data, 0)[j].number) ==> i == j
  {
    var ts := GridTiles(g, data, 0);
    GridTilesScanned(g, data);
    ScanPlacesOnceAt(g, home, data, ts, n);
  }

  /** `ScanPlacesOnce`, with the tile's drawing position spelled out. */
  lemma ScanPlacesOnceAt(g: seq<seq<Cell>>, home: int -> (int, int), data: map<int, Element>, ts: seq<Tile>, n: int)
    requires Standard(g, home) && Scanned(g, data, ts)
    requires 1 <= n <= 118 && n in data
    ensures exists i :: 0 <= i < |ts| && ts[i].number == n
    ensures forall i :: 0 <= i < |ts| && ts[i].number == n ==>
      (ts[i].row, ts[i].col) == home(n)
      && TileX(ts[i]) == -8.5 + home(n).1 as real
      && TileY(ts[i]) == 5.0 - home(n).0 as real
      && ts[i].element == data[n]
    ensures forall i, j :: 0 <= i < |ts| && 0 <= j < |ts| && ts[i].number == ts[j].number ==> i == j
  {
    ScanPlacesOnce(g, home, data, ts, n);
  }

  /** In a standard grid, every tile of the scan is a loaded element 1..118. */
  lemma OnlyLoadedIn(g: seq<seq<Cell>>, home: int -> (int, int), data: map<int, Element>, t: Tile)
    requires Standard(g, home)
    requires t in GridTiles(g, data, 0)
    ensures t.number in data && 1 <= t.number <= 118 && t.element == data[t.number]
  {
    var ts := GridTiles(g, data, 0);
    var i :| 0 <= i < |ts| && ts[i] == t;
    ScanDistinct(g, home, data, ts);
  }

  /** In a standard grid (the layout is one, by `LayoutIsStandard`), each
      tile of the scan shows the loaded element of its number, sits at that
      number's home cell and is drawn at (-8.5 + col, 5 - row). */
  lemma TileAtHomeIn(g: seq<seq<Cell>>, home: int -> (int, int), data: map<int, Element>, i: int)
    requires Standard(g, home)
    requires 0 <= i < |GridTiles(g, data, 0)|
    ensures 1 <= GridTiles(g, data, 0)[i].number <= 118 && GridTiles(g, data, 0)[i].number in data
    ensures (GridTiles(g, data, 0)[i].row, GridTiles(g, data, 0)[i].col) == home(GridTiles(g, data, 0)[i].number)
    ensures TileX(GridTiles(g, data, 0)[i]) == -8.5 + home(GridTiles(g, data, 0)[i].number).1 as real
    ensures TileY(GridTiles(g, data, 0)[i]) == 5.0 - home(GridTiles(g, data, 0)[i].number).0 as real
    ensures GridTiles(g, data, 0)[i].element == data[GridTiles(g, data, 0)[i].number]
  {
    GridTilesScanned(g, data);
    ScanDistinct(g, home, data, GridTiles(g, data, 0));
  }

  /** In a standard grid no two tiles of the scan share a number. */
  lemma OneTilePerNumberIn(g: seq<seq<Cell>>, home: int -> (int, int), data: map<int, Element>, i: int, j: int)
    requires Standard(g, home)
    requires 0 <= i < |GridTiles(g, data, 0)| && 0 <= j < |GridTiles(g, data, 0)|
    requires GridTiles(g, data, 0)[i].number == GridTiles(g, data, 0)[j].number
    ensures i == j
  {
    GridTilesScanned(g, data);
    ScanDistinct(g, home, data, GridTiles(g, data, 0));
  }

  /** In a standard grid with data keyed by number, the index maps each
      loaded 1..118 to its one tile. */
  lemma IndexIn(g: seq<seq<Cell>>, home: int -> (int, int), data: map<int, Element>, n: int)
    requires Standard(g, home) && KeyedByNumber(data)
    requires 1 <= n <= 118 && n in data
    ensures n in Index(GridTiles(g, data, 0))
    ensures Index(GridTiles(g, data, 0))[n].number == n
    ensures (Index(GridTiles(g, data, 0))[n].row, Index(GridTiles(g, data, 0))[n].col) == home(n)
  {
    var ts := GridTiles(g, data, 0);
    PlacesOnceIn(g, home, data, n);
    ScanDistinct(g, home, data, ts);
    forall a, b | 0 <= a < b < |ts| ensures ts[a].element.number != ts[b].element.number {
      assert Placed(g, data, ts[a]) && Placed(g, data, ts[b]);
    }
    var i :| 0 <= i < |ts| && ts[i].number == n;
    IndexOfDistinct(ts, i);
  }

  /** The tiles `createPeriodicTable` adds, in scan order. */
  function Placements(data: map<int, Element>): seq<Tile> {
    LayoutShape();
    GridTiles(Layout, data, 0)
  }

  lemma PlacementsOfLayout(data: map<int, Element>)
    ensures Shaped(Layout) && Placements(data) == GridTiles(Layout, data, 0)
  {
    LayoutShape();
  }

  /** Every loaded element numbered 1..118 gets a tile. */
  lemma EveryLoadedElementPlaced(data: map<int, Element>, n: int)
    requires 1 <= n <= 118 && n in data
    ensures exists i :: 0 <= i < |Placements(data)| && Placements(data)[i].number == n
  {
    PlacementsOfLayout(data);
    LayoutIsStandard();
    PlacesOnceIn(Layout, Home, data, n);
  }

  /** Only loaded elements numbered 1..118 get tiles: empty cells, the two
      markers and missing elements get none. */
  lemma NoTileWithoutElement(data: map<int, Element>, t: Tile)
    requires t in Placements(data)
    ensures t.number in data && 1 <= t.number <= 118 && t.element == data[t.number]
  {
    PlacementsOfLayout(data);
    LayoutIsStandard();
    OnlyLoadedIn(Layout, Home, data, t);
  }

  // ---------------------------------------------------------------------
  // Building the table

  /** The table group's tiles and the `elementBoxes` index by atomic number. */
  datatype Table = Table(ready: bool, group: seq<Tile>, boxes: map<int, Tile>)

  /** `elementBoxes[element.number] = box` for each tile in turn: the last
      write for a number wins. */
  function Index(ts: seq<Tile>): (m: map<int, Tile>)
    ensures forall k :: k in m <==> exists i :: 0 <= i < |ts| && ts[i].element.number == k
    decreases |ts|
  {
    if |ts| == 0 then map[]
    else
      var init := ts[..|ts| - 1];
      var m := Index(init);
      assert forall i :: 0 <= i < |init| ==> init[i] == ts[i];
      m[ts[|ts| - 1].element.number := ts[|ts| - 1]]
  }

  /** `createPeriodicTable(data)`: without the table group nothing happens;
      otherwise the tiles are appended to the group (it is never cleared)
      and indexed by number. */
  function CreatePeriodicTable(t: Table, data: map<int, Element>): (r: Table)
    ensures !t.ready ==> r == t
    ensures t.ready ==> |r.group| == |t.group| + |Placements(data)| && r.group[..|t.group|] == t.group
    ensures t.ready ==> r.group == t.group + Placements(data) && r.boxes == t.boxes + Index(Placements(data))
    ensures t.ready && KeyedByNumber(data) ==> forall n :: 1 <= n <= 118 && n in data ==>
      n in r.boxes && r.boxes[n].number == n && (r.boxes[n].row, r.boxes[n].col) == Home(n)
  {
    if !t.ready then t
    else if KeyedByNumber(data) then
      BuiltIndexFinds(t, data);
      AddTiles(t, Placements(data))
    else AddTiles(t, Placements(data))
  }

  /** After the tiles are added, the index finds each loaded element's
      tile at its home cell, whatever the index held before. */
  lemma BuiltIndexFinds(t: Table, data: map<int, Element>)
    requires KeyedByNumber(data)
    ensures forall n :: 1 <= n <= 118 && n in data ==>
      n in AddTiles(t, Placements(data)).boxes && AddTiles(t, Placements(data)).boxes[n].number == n
      && (AddTiles(t, Placements(data)).boxes[n].row, AddTiles(t, Placements(data)).boxes[n].col) == Home(n)
  {
    var ps := Placements(data);
    forall n | 1 <= n <= 118 && n in data
      ensures n in AddTiles(t, ps).boxes && AddTiles(t, ps).boxes[n].number == n
        && (AddTiles(t, ps).boxes[n].row, AddTiles(t, ps).boxes[n].col) == Home(n)
    {
      IndexFindsTile(data, n);
      assert AddTiles(t, ps).boxes[n] == Index(ps)[n];
    }
  }

  /** Appends tiles to the group and writes them into the index. */
  function AddTiles(t: Table, ps: seq<Tile>): (r: Table)
    ensures r.group == t.group + ps
  {
    t.(group := t.group + ps, boxes := t.boxes + Index(ps))
  }

  /** Adding the same tiles twice doubles them in the group; the index
      is overwritten with the same entries. */
  lemma AddTilesTwice(t: Table, ps: seq<Tile>)
    ensures AddTiles(AddTiles(t, ps), ps).group == t.group + ps + ps
    ensures AddTiles(AddTiles(t, ps), ps).boxes == AddTiles(t, ps).boxes
  {
  }

  /** A second call appends a second copy of every tile, while the index
      ends up the same as after one call. */
  lemma CreateTwiceDuplicatesTiles(t: Table, data: map<int, Element>)
    requires t.ready
    ensures CreatePeriodicTable(CreatePeriodicTable(t, data), data).group
      == t.group + Placements(data) + Placements(data)
    ensures CreatePeriodicTable(CreatePeriodicTable(t, data), data).boxes
      == CreatePeriodicTable(t, data).boxes
  {
    AddTilesTwice(t, Placements(data));
  }

  /** Data indexed by its own atomic numbers, as `loadElementData` stores it. */
  predicate KeyedByNumber(data: map<int, Element>) {
    forall k :: k in data ==> data[k].number == k
  }

  lemma {:induction false} IndexOfDistinct(ts: seq<Tile>, i: int)
    requires 0 <= i < |ts|
    requires forall a, b :: 0 <= a < b < |ts| ==> ts[a].element.number != ts[b].element.number
    ensures ts[i].element.number in Index(ts) && Index(ts)[ts[i].element.number] == ts[i]
    decreases |ts|
  {
    if i < |ts| - 1 {
      var init := ts[..|ts| - 1];
      assert init[i] == ts[i];
      IndexOfDistinct(init, i);
    }
  }

  /** With the data keyed by number, the index maps each loaded element
      1..118 to its one tile. */
  lemma IndexFindsTile(data: map<int, Element>, n: int)
    requires KeyedByNumber(data)
    requires 1 <= n <= 118 && n in data
    ensures n in Index(Placements(data))
    ensures Index(Placements(data))[n].number == n
    ensures (Index(Placements(data))[n].row, Index(Placements(data))[n].col) == Home(n)
  {
    PlacementsOfLayout(data);
    LayoutIsStandard();
    IndexIn(Layout, Home, data, n);
  }

  // ---------------------------------------------------------------------
  // Colours and applications

  /** The tile colour of each category, keyed in lower case. */
  const CategoryColors: map<string, int> := map[
    "alkali metal" := 0xff8a80,
    "alkaline earth metal" := 0xff80ab,
    "transition metal" := 0xea80fc,
    "post-transition metal" := 0xb388ff,
    "metalloid" := 0x8c9eff,
    "nonmetal" := 0x82b1ff,
    "halogen" := 0x80d8ff,
    "noble gas" := 0x84ffff,
    "lanthanide" := 0xa7ffeb,
    "actinide" := 0xb9f6ca
  ]

  const FallbackColor: int := 0xe6ee9c

  /** `colorMap[category.toLowerCase()] || 0xe6ee9c`. */
  function CategoryColor(category: string): int {
    var k := Lower(category);
    if k in CategoryColors && CategoryColors[k] != 0 then CategoryColors[k] else FallbackColor
  }

  /** The lookup ignores case, gives the listed colour for the ten
      categories and the fallback exactly for everything else. */
  lemma CategoryColorLookup(category: string)
    ensures CategoryColor(category) == CategoryColor(Lower(category))
    ensures Lower(category) in CategoryColors ==> CategoryColor(category) == CategoryColors[Lower(category)]
    ensures CategoryColor(category) == FallbackColor <==> Lower(category) !in CategoryColors
  {
    LowerIdempotent(category);
  }

  /** The ten categories get ten different colours. */
  lemma CategoryColorsDistinct(a: string, b: string)
    requires a in CategoryColors && b in CategoryColors && a != b
    ensures CategoryColors[a] != CategoryColors[b]
  {
  }

  /** Mock uses of sixteen elements, three each. */
  const Applications: map<string, seq<string>> := map[
    "H" := ["Fuel for stars", "Hydrogen fuel cells", "Industrial processes"],
    "He" := ["Cooling superconducting magnets", "Lifting balloons", "Deep-sea diving mixtures"],
    "Li" := ["Lithium-ion batteries", "Psychiatric medications", "Aerospace alloys"],
    "Be" := ["Aerospace components", "X-ray windows", "Nuclear reactors"],
    "C" := ["Structural materials", "Organic chemistry", "Energy storage"],
    "O" := ["Respiration", "Combustion", "Industrial oxidation"],
    "Na" := ["Salt (NaCl)", "Street lighting", "Heat transfer in nuclear reactors"],
    "Al" := ["Lightweight structural materials", "Packaging", "Electrical transmission lines"],
    "Si" := ["Semiconductors", "Solar cells", "Glass production"],
    "Fe" := ["Structural steel", "Vehicles", "Machinery manufacturing"],
    "Cu" := ["Electrical wiring", "Plumbing", "Electronics"],
    "Ag" := ["Electronics", "Photography", "Antimicrobial applications"],
    "Au" := ["Electronics", "Jewelry", "Dentistry"],
    "Hg" := ["Thermometers", "Fluorescent lighting", "Dental amalgams"],
    "Pb" := ["Batteries", "Radiation shielding", "Historical plumbing"],
    "U" := ["Nuclear fuel", "Military applications", "Radiation shielding"]
  ]

  const DefaultApplications: seq<string> := ["Industrial applications", "Scientific research"]

  /** `applicationsData[symbol] || [default pair]` (an array is always truthy). */
  function GetElementApplications(symbol: string): seq<string> {
    if symbol in Applications then Applications[symbol] else DefaultApplications
  }

  /** Listed symbols get their three uses; every other symbol, and only
      those, gets the default pair. The lookup is case-sensitive. */
  lemma ApplicationsLookup(symbol: string)
    ensures symbol in Applications ==> |GetElementApplications(symbol)| == 3
    ensures GetElementApplications(symbol) == DefaultApplications <==> symbol !in Applications
  {
    if symbol in Applications {
      assert |Applications[symbol]| == 3;
    }
  }

  // ---------------------------------------------------------------------
  // Loading

  /** A record of the lookup dataset with its applications attached. */
  function WithApplications(e: Element): Element {
    e.(applications := Some(GetElementApplications(e.symbol)))
  }

  /** `loadElementData`'s indexing loop: every record with a non-zero
      number is stored under that number, applications attached; a later
      record with the same number replaces an earlier one. */
  function LoadElementData(raw: seq<Element>): (data: map<int, Element>)
    ensures KeyedByNumber(data)
    ensures forall k :: k in data <==> k != 0 && exists i :: 0 <= i < |raw| && raw[i].number == k
    ensures forall k :: k in data ==> data[k].applications == Some(GetElementApplications(data[k].symbol))
    ensures forall k :: k in data ==> exists i :: 0 <= i < |raw| && data[k] == WithApplications(raw[i])
    decreases |raw|
  {
    if |raw| == 0 then map[]
    else
      var init := raw[..|raw| - 1];
      var last := raw[|raw| - 1];
      var data := LoadElementData(init);
      assert forall i :: 0 <= i < |init| ==> init[i] == raw[i];
      if last.number != 0 then data[last.number := WithApplications(last)] else data
  }
}
