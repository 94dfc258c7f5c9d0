/**
 How a join is cut into tiles: tile dimensions, exclusion zones, and the order in which tiles are queued.
 */
module Tiling {
  import opened Arithmetic
  import opened Kernel

  /** The fields of a join that decide which pairs are computed. */
  datatype OpInfo = OpInfo(
    fullTsLenA: nat, fullTsLenB: nat, mpWindow: nat,
    maxTileTsSize: nat, maxTileWidth: nat, maxTileHeight: nat,
    globalStartRowPosition: int, globalStartColPosition: int,
    selfJoin: bool, isAligned: bool, sumProfile: bool)
  {
    ghost predicate Valid() {
      && mpWindow >= 3 && fullTsLenA >= mpWindow && fullTsLenB >= mpWindow
      && maxTileTsSize >= 2 * mpWindow && maxTileWidth == maxTileHeight == maxTileTsSize - mpWindow + 1
      && (selfJoin ==> fullTsLenA == fullTsLenB)
    }

    /** The number of subsequences of each series. */
    function CountA(): int { fullTsLenA - mpWindow + 1 }
    function CountB(): int { fullTsLenB - mpWindow + 1 }
  }

  /** The constructor's adjustments, in its order: no tile is smaller than one window plus one. */
  function MakeOpInfo(aSize: nat, bSize: nat, window: nat, maxTileSize: nat, selfJoin: bool, aligned: bool,
                      sumProfile: bool, startRow: int, startCol: int, numWorkers: nat): (info: OpInfo)
    requires window >= 3 && aSize >= window && (!selfJoin ==> bSize >= window) && numWorkers > 0
    ensures info.Valid() && info.fullTsLenA == aSize && info.maxTileWidth >= window + 1
    ensures info.fullTsLenB == if selfJoin then aSize else bSize
    ensures GetExclusion(window, 0, 0) < info.maxTileWidth
    ensures info.maxTileTsSize == Max(2 * window, Min(maxTileSize, Max(aSize, bSize) / numWorkers))
    ensures info.mpWindow == window && info.selfJoin == selfJoin && info.isAligned == aligned
    ensures info.sumProfile == sumProfile
    ensures info.globalStartRowPosition == startRow && info.globalStartColPosition == startCol
  {
    var lenB := if selfJoin then aSize else bSize;
    var share := Max(aSize, bSize) / numWorkers;
    var capped := if share > maxTileSize then maxTileSize else share;
    var size := if capped < window + window then window + window else capped;
    OpInfo(aSize, lenB, window, size, size - window + 1, size - window + 1, startRow, startCol, selfJoin, aligned,
      sumProfile)
  }

  // ---------- Exclusion zones ----------

  /** The trivial-match zone, if a tile that starts there meets it. */
  function GetExclusion(window: nat, startRow: int, startColumn: int): (r: nat)
    ensures r > 0 <==> 0 <= 4 * (startColumn - startRow) < window
    ensures r > 0 ==> 4 * (r - 1) < window <= 4 * r
  {
    var exclusion := (window + 3) / 4;
    if startRow <= startColumn < startRow + exclusion then exclusion else 0
  }

  /** A tile of the queue, by block coordinates. */
  datatype Tile = Tile(row: nat, col: nat)

  function TileRow(info: OpInfo, t: Tile): nat { t.row * info.maxTileHeight }
  function TileCol(info: OpInfo, t: Tile): nat { t.col * info.maxTileWidth }

  /** The subsequences of a tile, along its columns and along its rows. */
  function Width(info: OpInfo, t: Tile): int {
    Min(info.maxTileTsSize, info.fullTsLenA - TileCol(info, t)) - info.mpWindow + 1
  }

  function Height(info: OpInfo, t: Tile): int {
    Min(info.maxTileTsSize, info.fullTsLenB - TileRow(info, t)) - info.mpWindow + 1
  }

  function SelfJoinExclusion(info: OpInfo, t: Tile, upper: bool): (nat, nat) {
    var extra := if info.sumProfile then 1 else 0;
    if upper then (GetExclusion(info.mpWindow, TileRow(info, t), TileCol(info, t)), 0)
    else (extra, GetExclusion(info.mpWindow, TileCol(info, t), TileRow(info, t) + Height(info, t)))
  }

  function AbJoinExclusion(info: OpInfo, t: Tile, upper: bool): (nat, nat) {
    var alternative := if upper && info.sumProfile then 1 else 0;
    if !info.isAligned then (alternative, 0)
    else
      var distributed := info.globalStartColPosition >= 0 && info.globalStartRowPosition >= 0;
      var startCol := TileCol(info, t) + if distributed then info.globalStartColPosition else 0;
      var startRow := TileRow(info, t) + if distributed then info.globalStartRowPosition else 0;
      if upper then
        var lower := GetExclusion(info.mpWindow, startRow, startCol);
        var top := if startRow > startCol then GetExclusion(info.mpWindow, startRow, startCol + Width(info, t)) else 0;
        (Max(lower, alternative), top)
      else
        var lower := GetExclusion(info.mpWindow, startCol, startRow);
        var bottom := if startRow <= startCol then GetExclusion(info.mpWindow, startCol, startRow + Height(info, t))
          else 0;
        (Max(lower, alternative), bottom)
  }

  // ---------- The cells of a tile ----------

  /** What the launcher runs: the band, unless the exclusion zones leave no diagonal. */
  predicate Launched(nx: int, ny: int, exclusion: (nat, nat), r: int, c: int) {
    exclusion.0 + exclusion.1 < nx && Band(nx, ny, exclusion.0, exclusion.1, r, c)
  }

  function Exclusions(info: OpInfo, t: Tile, upper: bool): (nat, nat) {
    if info.selfJoin then SelfJoinExclusion(info, t, upper) else AbJoinExclusion(info, t, upper)
  }

  /** The upper kernel evaluates row `i` and column `j` of the whole matrix in tile `t`. */
  predicate UpperCell(info: OpInfo, t: Tile, i: int, j: int) {
    Launched(Width(info, t), Height(info, t), Exclusions(info, t, true), i - TileRow(info, t), j - TileCol(info, t))
  }

  /** The lower kernel runs on the transposed tile; a self-join leaves it out on the diagonal. */
  predicate LowerCell(info: OpInfo, t: Tile, i: int, j: int) {
    && !(info.selfJoin && t.row == t.col)
    && Launched(Height(info, t), Width(info, t), Exclusions(info, t, false), j - TileCol(info, t), i - TileRow(info, t))
  }

  /** How often a tile evaluates a pair. */
  function TileEvaluations(info: OpInfo, t: Tile, i: int, j: int): nat {
    (if UpperCell(info, t, i, j) then 1 else 0) + (if LowerCell(info, t, i, j) then 1 else 0)
  }

  /** How often a queue of tiles evaluates a pair. */
  function Evaluations(info: OpInfo, queue: seq<Tile>, i: int, j: int): nat {
    if queue == [] then 0 else Evaluations(info, queue[..|queue| - 1], i, j) + TileEvaluations(info, queue[|queue| - 1],
      i, j)
  }

  /** The tile that holds a pair. */
  function Home(info: OpInfo, i: nat, j: nat): Tile
    requires info.Valid()
  {
    Tile(i / info.maxTileHeight, j / info.maxTileWidth)
  }

  lemma DivBounds(i: nat, t: nat, q: nat)
    requires t > 0 && q * t <= i < q * t + t
    ensures q == i / t
  {
    if q < i / t {
      MulMonotone(q + 1, i / t, t);
    } else if i / t < q {
      MulMonotone(i / t + 1, q, t);
    }
  }

  lemma InsideTile(info: OpInfo, t: Tile, i: nat, j: nat)
    requires info.Valid()
    requires 0 <= i - TileRow(info, t) < info.maxTileHeight && 0 <= j - TileCol(info, t) < info.maxTileWidth
    ensures t == Home(info, i, j)
  {
    DivBounds(i, info.maxTileHeight, t.row);
    DivBounds(j, info.maxTileWidth, t.col);
  }

  /** Only its home tile evaluates a pair. */
  lemma OnlyHomeEvaluates(info: OpInfo, t: Tile, i: nat, j: nat)
    requires info.Valid() && TileEvaluations(info, t, i, j) > 0
    ensures t == Home(info, i, j)
  {
    InsideTile(info, t, i, j);
  }

  lemma {:induction false} EvaluationsByHome(info: OpInfo, queue: seq<Tile>, i: nat, j: nat)
    requires info.Valid()
    ensures Evaluations(info, queue, i, j)
         == multiset(queue)[Home(info, i, j)] * TileEvaluations(info, Home(info, i, j), i, j)
  {
    hide TileEvaluations, Home;
    if queue != [] {
      var rest, last, home := queue[..|queue| - 1], queue[|queue| - 1], Home(info, i, j);
      EvaluationsByHome(info, rest, i, j);
      assert queue == rest + [last];
      if TileEvaluations(info, last, i, j) > 0 {
        OnlyHomeEvaluates(info, last, i, j);
      }
      OneMore(multiset(rest)[home], TileEvaluations(info, home, i, j));
    }
  }

  lemma OneMore(n: nat, k: nat)
    ensures (n + 1) * k == n * k + k
  {
  }

  // ---------- The work queue ----------

  /** The number of tiles along a side of `n` subsequences. */
  function NumTiles(n: int, size: int): nat
    requires n > 0 && size > 0
  {
    (n + size - 1) / size
  }

  lemma NumTilesPositive(n: int, size: int)
    requires n > 0 && size > 0
    ensures NumTiles(n, size) >= 1
  {
    DivAtLeast(size, n + size - 1, size);
  }

  lemma DivAtLeast(a: nat, b: nat, t: nat)
    requires a <= b && t > 0
    ensures a / t <= b / t
  {
    if b / t < a / t {
      MulMonotone(b / t + 1, a / t, t);
    }
  }

  /** Exactly the blocks that hold a subsequence are counted. */
  lemma NumTilesExact(n: int, size: int, q: nat)
    requires n > 0 && size > 0
    ensures q < NumTiles(n, size) <==> q * size < n
  {
    var k := n + size - 1;
    if q * size < n {
      DivAtLeast((q + 1) * size, k, size);
      DivBounds((q + 1) * size, size, q + 1);
    } else {
      DivAtLeast(k, q * size + size - 1, size);
      DivBounds(q * size + size - 1, size, q);
    }
  }

  /** The tiles along the two sides. */
  function TileRows(info: OpInfo): nat
    requires info.Valid()
  {
    NumTiles(info.CountB(), info.maxTileHeight)
  }

  function TileCols(info: OpInfo): nat
    requires info.Valid()
  {
    NumTiles(info.CountA(), info.maxTileWidth)
  }

  /** The tiles a join needs: the upper block triangle, or the whole grid. */
  predicate Needed(info: OpInfo, t: Tile)
    requires info.Valid()
  {
    t.row < TileRows(info) && t.col < TileCols(info) && (info.selfJoin ==> t.row <= t.col)
  }

  /** A queue that holds each needed tile exactly once, and no other tile. */
  ghost predicate Enumerates(info: OpInfo, queue: seq<Tile>)
    requires info.Valid()
  {
    forall t: Tile :: multiset(queue)[t] == if Needed(info, t) then 1 else 0
  }

  lemma TwiceInQueue(queue: seq<Tile>, i: nat, j: nat)
    requires i < j < |queue|
    ensures queue[i] == queue[j] ==> multiset(queue)[queue[i]] >= 2
  {
    var first, second := queue[..j], queue[j..];
    assert queue == first + second;
    assert queue[i] == first[i] && queue[j] == second[0];
    assert first[i] in multiset(first) && second[0] in multiset(second);
  }

  /** The tile schedule. */
  method GetTiles(info: OpInfo) returns (queue: seq<Tile>, total: nat)
    requires info.Valid()
    ensures Enumerates(info, queue) && total == |queue|
  {
    var numTileRows, numTileCols := TileRows(info), TileCols(info);
    NumTilesPositive(info.CountB(), info.maxTileHeight);
    NumTilesPositive(info.CountA(), info.maxTileWidth);
    if info.selfJoin {
      queue := SelfJoinTiles(numTileRows);
    } else {
      queue := InnerTiles(numTileRows, numTileCols);
      queue := EdgeTiles(queue, numTileRows, numTileCols);
    }
    total := |queue|;
  }

  method SelfJoinTiles(n: nat) returns (queue: seq<Tile>)
    requires n >= 1
    ensures forall t: Tile :: multiset(queue)[t] == if t.row <= t.col < n then 1 else 0
  {
    queue := [];
    var offset := 0;
    while offset < n - 1
      invariant offset <= n - 1
      invariant forall t: Tile :: (multiset(queue)[t] ==
        if t.row <= t.col < n - 1 && t.col - t.row < offset then 1 else 0)
    {
      var diag := 0;
      while diag < n - 1 - offset
        invariant diag <= n - 1 - offset
        invariant forall t: Tile :: (multiset(queue)[t] ==
          if t.row <= t.col < n - 1 && (t.col - t.row < offset || (t.col - t.row == offset && t.row < diag)) then 1
            else 0)
      {
        queue := queue + [Tile(diag, diag + offset)];
        diag := diag + 1;
      }
      offset := offset + 1;
    }
    for i := 0 to n
      invariant forall t: Tile :: (multiset(queue)[t] ==
        if t.row <= t.col < n - 1 || (t.col == n - 1 && t.row < i) then 1 else 0)
    {
      queue := queue + [Tile(i, n - 1)];
    }
  }

  /** The diagonals of an AB-join without the last row and the last column of tiles. */
  method InnerTiles(rows: nat, cols: nat) returns (queue: seq<Tile>)
    requires rows >= 1 && cols >= 1
    ensures forall t: Tile :: multiset(queue)[t] == if t.row < rows - 1 && t.col < cols - 1 then 1 else 0
  {
    queue := [];
    var diag := 0;
    while diag < cols - 1
      invariant diag <= cols - 1
      invariant forall t: Tile :: (multiset(queue)[t] ==
        if t.row < rows - 1 && t.row <= t.col < cols - 1 && t.col - t.row < diag then 1 else 0)
    {
      var offset := 0;
      while offset + diag < cols - 1 && offset < rows - 1
        invariant offset + diag <= cols - 1 && offset <= rows - 1
        invariant forall t: Tile :: (multiset(queue)[t] ==
          if t.row < rows - 1 && t.row <= t.col < cols - 1
             && (t.col - t.row < diag || (t.col - t.row == diag && t.row < offset)) then 1 else 0)
      {
        queue := queue + [Tile(offset, diag + offset)];
        offset := offset + 1;
      }
      diag := diag + 1;
    }
    diag := 1;
    while diag < rows - 1
      invariant 1 <= diag
      invariant forall t: Tile :: (multiset(queue)[t] ==
        if t.row < rows - 1 && t.col < cols - 1 && t.row - t.col < diag then 1 else 0)
    {
      var offset := 0;
      while offset + diag < rows - 1 && offset < cols - 1
        invariant offset + diag <= rows - 1 && offset <= cols - 1
        invariant forall t: Tile :: (multiset(queue)[t] ==
          if t.row < rows - 1 && t.col < cols - 1
             && (t.row - t.col < diag || (t.row - t.col == diag && t.col < offset)) then 1 else 0)
      {
        queue := queue + [Tile(offset + diag, offset)];
        offset := offset + 1;
      }
      diag := diag + 1;
    }
  }

  /** The corner, then the last column and the last row in turn, then whichever is longer. */
  method EdgeTiles(inner: seq<Tile>, rows: nat, cols: nat) returns (queue: seq<Tile>)
    requires rows >= 1 && cols >= 1
    requires forall t: Tile :: multiset(inner)[t] == if t.row < rows - 1 && t.col < cols - 1 then 1 else 0
    ensures forall t: Tile :: multiset(queue)[t] == if t.row < rows && t.col < cols then 1 else 0
  {
    hide EdgeCount;
    queue := inner + [Tile(rows - 1, cols - 1)];
    EdgeStart(inner, rows, cols);
    var x, y := 0, 0;
    while x < cols - 1 && y < rows - 1
      invariant x == y && x <= cols - 1 && y <= rows - 1
      invariant EdgeCount(queue, rows, cols, x, y)
    {
      PushColumnEdge(queue, rows, cols, x, y);
      queue := queue + [Tile(y, cols - 1)];
      PushRowEdge(queue, rows, cols, x, y + 1);
      queue := queue + [Tile(rows - 1, x)];
      x := x + 1;
      y := y + 1;
    }
    while x < cols - 1
      invariant x <= cols - 1 && y <= rows - 1
      invariant y < rows - 1 ==> x == cols - 1
      invariant EdgeCount(queue, rows, cols, x, y)
    {
      PushRowEdge(queue, rows, cols, x, y);
      queue := queue + [Tile(rows - 1, x)];
      x := x + 1;
    }
    while y < rows - 1
      invariant x == cols - 1 && y <= rows - 1
      invariant EdgeCount(queue, rows, cols, x, y)
    {
      PushColumnEdge(queue, rows, cols, x, y);
      queue := queue + [Tile(y, cols - 1)];
      y := y + 1;
    }
    EdgeDone(queue, rows, cols);
  }

  /** The inner tiles, the corner, the first `y` tiles of the last column and the first `x` of the last row. */
  ghost predicate EdgeCount(queue: seq<Tile>, rows: nat, cols: nat, x: nat, y: nat) {
    forall t: Tile :: (multiset(queue)[t] ==
      if (t.row < rows - 1 && t.col < cols - 1)
         || (t.col == cols - 1 && (t.row < y || t.row == rows - 1))
         || (t.row == rows - 1 && t.col < x) then 1 else 0)
  }

  lemma EdgeStart(inner: seq<Tile>, rows: nat, cols: nat)
    requires rows >= 1 && cols >= 1
    requires forall t: Tile :: multiset(inner)[t] == if t.row < rows - 1 && t.col < cols - 1 then 1 else 0
    ensures EdgeCount(inner + [Tile(rows - 1, cols - 1)], rows, cols, 0, 0)
  {
  }

  lemma PushColumnEdge(queue: seq<Tile>, rows: nat, cols: nat, x: nat, y: nat)
    requires cols >= 1 && y < rows - 1 && EdgeCount(queue, rows, cols, x, y)
    ensures EdgeCount(queue + [Tile(y, cols - 1)], rows, cols, x, y + 1)
  {
  }

  lemma PushRowEdge(queue: seq<Tile>, rows: nat, cols: nat, x: nat, y: nat)
    requires rows >= 1 && x < cols - 1 && EdgeCount(queue, rows, cols, x, y)
    ensures EdgeCount(queue + [Tile(rows - 1, x)], rows, cols, x + 1, y)
  {
  }

  lemma EdgeDone(queue: seq<Tile>, rows: nat, cols: nat)
    requires rows >= 1 && cols >= 1 && EdgeCount(queue, rows, cols, cols - 1, rows - 1)
    ensures forall t: Tile :: multiset(queue)[t] == if t.row < rows && t.col < cols then 1 else 0
  {
  }
}
