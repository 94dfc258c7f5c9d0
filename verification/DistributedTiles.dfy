/**
 How a distributed job cuts its distance matrix into tiles before any of them is handed out.
 */
module DistributedTiles {
  import opened Arithmetic
  import opened Tiling

  /** A tile's block coordinates, its size and its number. */
  datatype Place = Place(row: nat, col: nat, height: int, width: int, id: nat)

  /** A cell of the distance matrix lies in a tile. */
  predicate Holds(t: Place, size: nat, i: int, j: int) {
    t.row * size <= i < t.row * size + t.height && t.col * size <= j < t.col * size + t.width
  }

  /** Without a second series only the tiles on and above the diagonal exist. */
  predicate Exists(rows: nat, cols: nat, hasB: bool, r: nat, c: nat) {
    r < rows && c < cols && (!hasB ==> r <= c)
  }

  ghost predicate Made(tiles: seq<Place>, width: int, height: int, size: nat) {
    forall k :: 0 <= k < |tiles| ==>
      tiles[k] == Place(tiles[k].row, tiles[k].col, Min(size, height - tiles[k].row * size),
        Min(size, width - tiles[k].col * size), k)
  }

  ghost function Blocks(tiles: seq<Place>): (s: seq<Tile>)
    ensures |s| == |tiles| && forall k :: 0 <= k < |tiles| ==> s[k] == Tile(tiles[k].row, tiles[k].col)
  {
    seq(|tiles|, k requires 0 <= k < |tiles| => Tile(tiles[k].row, tiles[k].col))
  }

  /** The tiles made so far: all rows above `r`, and row `r` up to column `c`. */
  ghost predicate MadeUpTo(tiles: seq<Place>, rows: nat, cols: nat, hasB: bool, r: nat, c: nat) {
    forall t: Tile :: (multiset(Blocks(tiles))[t] ==
      if Exists(rows, cols, hasB, t.row, t.col) && (t.row < r || (t.row == r && t.col < c)) then 1 else 0)
  }

  lemma OneMoreTile(tiles: seq<Place>, tile: Place)
    ensures Blocks(tiles + [tile]) == Blocks(tiles) + [Tile(tile.row, tile.col)]
  {
  }

  /** The tiles of a job, numbered in the order they are queued. */
  method MakeTiles(width: int, height: int, size: nat, hasB: bool) returns (tiles: seq<Place>, rows: nat, cols: nat)
    requires width > 0 && height > 0 && size > 0 && (!hasB ==> height == width)
    ensures rows == NumTiles(height, size) && cols == NumTiles(width, size)
    ensures Made(tiles, width, height, size) && MadeUpTo(tiles, rows, cols, hasB, rows, 0)
  {
    hide NumTiles, MadeUpTo;
    cols := NumTiles(width, size);
    rows := if hasB then NumTiles(height, size) else cols;
    tiles := [];
    NoTiles(rows, cols, hasB);
    for r := 0 to rows
      invariant Made(tiles, width, height, size) && MadeUpTo(tiles, rows, cols, hasB, r, 0)
    {
      ghost var first := if hasB then 0 else r;
      FirstColumn(tiles, rows, cols, hasB, r, first);
      for c := (if hasB then 0 else r) to cols
        invariant Made(tiles, width, height, size) && MadeUpTo(tiles, rows, cols, hasB, r, c)
      {
        var tile := Place(r, c, Min(size, height - r * size), Min(size, width - c * size), |tiles|);
        OneMoreTile(tiles, tile);
        NextColumn(tiles, rows, cols, hasB, r, c, tile);
        tiles := tiles + [tile];
      }
      RowDone(tiles, rows, cols, hasB, r);
    }
  }

  lemma NoTiles(rows: nat, cols: nat, hasB: bool)
    ensures MadeUpTo([], rows, cols, hasB, 0, 0)
  {
  }

  lemma FirstColumn(tiles: seq<Place>, rows: nat, cols: nat, hasB: bool, r: nat, first: nat)
    requires MadeUpTo(tiles, rows, cols, hasB, r, 0) && first == if hasB then 0 else r
    ensures MadeUpTo(tiles, rows, cols, hasB, r, first)
  {
  }

  lemma NextColumn(tiles: seq<Place>, rows: nat, cols: nat, hasB: bool, r: nat, c: nat, tile: Place)
    requires r < rows && c < cols && (!hasB ==> r <= c) && tile.row == r && tile.col == c
    requires MadeUpTo(tiles, rows, cols, hasB, r, c)
    ensures MadeUpTo(tiles + [tile], rows, cols, hasB, r, c + 1)
  {
    OneMoreTile(tiles, tile);
  }

  lemma RowDone(tiles: seq<Place>, rows: nat, cols: nat, hasB: bool, r: nat)
    requires MadeUpTo(tiles, rows, cols, hasB, r, cols)
    ensures MadeUpTo(tiles, rows, cols, hasB, r + 1, 0)
  {
  }

  /** Every cell of the matrix (of its upper block triangle, for a self-join) lies in exactly one tile. */
  lemma CellsArePartitioned(tiles: seq<Place>, width: int, height: int, size: nat, hasB: bool, i: nat, j: nat)
    requires width > 0 && height > 0 && size > 0 && i < height && j < width && (!hasB ==> height == width)
    requires Made(tiles, width, height, size)
    requires MadeUpTo(tiles, NumTiles(height, size), NumTiles(width, size), hasB, NumTiles(height, size), 0)
    ensures (exists k :: 0 <= k < |tiles| && Holds(tiles[k], size, i, j)) <==> hasB || i / size <= j / size
    ensures forall k, l ::
      0 <= k < |tiles| && 0 <= l < |tiles| && Holds(tiles[k], size, i, j) && Holds(tiles[l], size, i, j) ==> k == l
  {
    hide NumTiles;
    var home := Tile(i / size, j / size);
    HomeExists(width, height, size, i, j);
    forall k | 0 <= k < |tiles| ensures Holds(tiles[k], size, i, j) <==> Blocks(tiles)[k] == home {
      HoldsIsHome(tiles[k], width, height, size, i, j);
    }
    assert multiset(Blocks(tiles))[home] == if hasB || home.row <= home.col then 1 else 0;
    if hasB || home.row <= home.col {
      assert home in multiset(Blocks(tiles));
      var k :| 0 <= k < |tiles| && Blocks(tiles)[k] == home;
      assert Holds(tiles[k], size, i, j);
    }
    forall k, l | 0 <= k < l < |tiles| && Holds(tiles[k], size, i, j) && Holds(tiles[l], size, i, j) ensures false {
      TwiceInQueue(Blocks(tiles), k, l);
    }
  }

  lemma HomeExists(width: int, height: int, size: nat, i: nat, j: nat)
    requires width > 0 && height > 0 && size > 0 && i < height && j < width
    ensures i / size < NumTiles(height, size) && j / size < NumTiles(width, size)
  {
    NumTilesExact(height, size, i / size);
    NumTilesExact(width, size, j / size);
    DivFloor(i, size);
    DivFloor(j, size);
  }

  lemma HoldsIsHome(t: Place, width: int, height: int, size: nat, i: nat, j: nat)
    requires size > 0 && i < height && j < width
    requires t.height == Min(size, height - t.row * size) && t.width == Min(size, width - t.col * size)
    ensures Holds(t, size, i, j) <==> t.row == i / size && t.col == j / size
  {
    DivFloor(i, size);
    DivFloor(j, size);
    if Holds(t, size, i, j) {
      DivBounds(i, size, t.row);
      DivBounds(j, size, t.col);
    }
  }
}
