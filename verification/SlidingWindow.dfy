/**
 The sliding-window kernel, one thread on one tile: the fast path with its register window and its column
 accumulators against the checked path that handles one row at a time.
 */
module SlidingWindow {
  import opened Profiles
  import opened Kernel
  import opened GpuBlock

  /** A tile's data and partial profiles in shared memory. */
  datatype Shared = Shared(
    dfCol: seq<real>, dgCol: seq<real>, inormCol: seq<Norm>,
    dfRow: seq<real>, dgRow: seq<real>, inormRow: seq<Norm>,
    localMpCol: seq<Entry>, localMpRow: seq<Entry>)

  /** A thread's covariances, one per diagonal, and its position. */
  datatype Info = Info(cov: seq<real>, globalCol: nat, globalRow: nat, localCol: nat, localRow: nat)

  ghost predicate Shaped(g: Geo, sm: Shared) {
    && |sm.dfCol| == |sm.dgCol| == |sm.inormCol| == |sm.localMpCol| == g.Width() + g.height
    && |sm.dfRow| == |sm.dgRow| == |sm.inormRow| == |sm.localMpRow| == g.height
  }

  /** Shared memory mirrors the tile's columns and rows, where these exist. */
  ghost predicate Mirrors(g: Geo, sm: Shared, tileRow: nat)
    requires g.Valid() && Shaped(g, sm)
  {
    && (forall x :: 0 <= x < |sm.dfCol| && g.startCol + tileRow + x < g.a.nx ==>
          && sm.dfCol[x] == g.a.dfa[g.startCol + tileRow + x] && sm.dgCol[x] == g.a.dga[g.startCol + tileRow + x]
          && sm.inormCol[x] == g.a.normsa[g.startCol + tileRow + x])
    && (forall i :: 0 <= i < g.height && tileRow + i < g.a.ny ==>
          && sm.dfRow[i] == g.a.dfb[tileRow + i] && sm.dgRow[i] == g.a.dgb[tileRow + i]
          && sm.inormRow[i] == g.a.normsb[tileRow + i])
  }

  ghost predicate Seeded(g: Geo, tileRow: nat, sm: Shared) {
    g.kind.Nearest? ==>
      && (g.cols ==> forall x :: 0 <= x < |sm.localMpCol| && g.startCol + tileRow + x < g.a.nx ==>
            sm.localMpCol[x].value >= InitDist(g.kind))
      && (g.rows ==> forall i :: 0 <= i < |sm.localMpRow| && tileRow + i < g.a.ny ==>
            sm.localMpRow[i].value >= InitDist(g.kind))
  }

  // ---------- The cells of some of the block's diagonals ----------

  /** The block's diagonals are counted from its first one. */
  predicate Diag(g: Geo, lo: int, hi: int, r: int, c: int) {
    g.Cell(r, c) && lo <= c - g.startCol - r < hi
  }

  ghost function DiagRows(g: Geo, lo: int, hi: int, from: int, to: int, c: int): (s: set<int>)
    ensures forall r :: r in s <==> from <= r < to && Diag(g, lo, hi, r, c)
  {
    set r | r in Range(from, to) && Diag(g, lo, hi, r, c)
  }

  ghost function DiagCols(g: Geo, lo: int, hi: int, r: int): (s: set<int>)
    ensures forall c :: c in s <==> Diag(g, lo, hi, r, c)
  {
    set c | c in Range(0, g.a.nx) && Diag(g, lo, hi, r, c)
  }

  /** What column `c` has gathered from the rows in `[from, to)` on the diagonals in `[lo, hi)`. */
  ghost predicate ColOk(g: Geo, lo: int, hi: int, from: int, to: int, c: nat, was: Entry, now: Entry)
    requires g.Valid()
  {
    g.cols && c < g.a.nx ==> Gathered(g.kind, g.a.ColDists(c), was, DiagRows(g, lo, hi, from, to, c), now)
  }

  ghost predicate RowOk(g: Geo, lo: int, hi: int, from: int, to: int, r: nat, was: Entry, now: Entry)
    requires g.Valid()
  {
    g.rows && r < g.a.ny ==>
      Gathered(g.kind, g.a.RowDists(r), was, if from <= r < to then DiagCols(g, lo, hi, r) else {}, now)
  }

  ghost predicate ColsContributed(g: Geo, lo: int, hi: int, tileRow: nat, from: int, to: int,
                                  was: seq<Entry>, now: seq<Entry>)
    requires g.Valid()
  {
    && |now| == |was|
    && (forall x: nat :: x < |was| ==> ColOk(g, lo, hi, from, to, g.startCol + tileRow + x, was[x], now[x]))
  }

  ghost predicate RowsContributed(g: Geo, lo: int, hi: int, tileRow: nat, from: int, to: int,
                                  was: seq<Entry>, now: seq<Entry>)
    requires g.Valid()
  {
    && |now| == |was|
    && (forall i: nat :: i < |was| ==> RowOk(g, lo, hi, from, to, tileRow + i, was[i], now[i]))
  }

  /** The tile's partial profiles have taken in exactly the cells of these diagonals and rows, each once. */
  ghost predicate Contributed(g: Geo, lo: int, hi: int, tileRow: nat, from: int, to: int, was: Shared, now: Shared)
    requires g.Valid()
  {
    && now == was.(localMpCol := now.localMpCol, localMpRow := now.localMpRow)
    && ColsContributed(g, lo, hi, tileRow, from, to, was.localMpCol, now.localMpCol)
    && RowsContributed(g, lo, hi, tileRow, from, to, was.localMpRow, now.localMpRow)
  }

  // ---------- One distance, one covariance ----------

  /** The covariances of diagonals `off ..` in row `row`, where their columns exist. */
  ghost predicate CovOk(g: Geo, off: nat, row: nat, cov: seq<real>)
    requires g.Valid()
  {
    && |cov| == g.dpt
    && (forall i :: 0 <= i < g.dpt && row <= g.a.ny && g.startCol + off + row + i < g.a.nx ==>
          cov[i] == g.a.Cov(row, g.startCol + off + row + i))
  }

  /** Column data from the block's column `at` on, where the columns exist. */
  ghost predicate ColData(g: Geo, at: nat, dfc: seq<real>, dgc: seq<real>, inormc: seq<Norm>)
    requires g.Valid()
  {
    && |dfc| == |dgc| == |inormc|
    && (forall i :: 0 <= i < |dfc| && g.startCol + at + i < g.a.nx ==>
          && dfc[i] == g.a.dfa[g.startCol + at + i] && dgc[i] == g.a.dga[g.startCol + at + i]
          && inormc[i] == g.a.normsa[g.startCol + at + i])
  }

  /** One row of distances and the covariances of the next row, from column data starting at `at`. */
  method Distances(g: Geo, cov: seq<real>, dfc: seq<real>, dgc: seq<real>, inormc: seq<Norm>, at: nat,
                   dfr: real, dgr: real, inormr: Norm, ghost off: nat, ghost row: nat)
      returns (dist: seq<Dist>, next: seq<real>)
    requires g.Valid() && CovOk(g, off, row, cov) && at + g.dpt <= |dfc| == |dgc| == |inormc|
    requires ColData(g, off + row, dfc[at..at + g.dpt], dgc[at..at + g.dpt], inormc[at..at + g.dpt])
    requires row < g.a.ny && dfr == g.a.dfb[row] && dgr == g.a.dgb[row] && inormr == g.a.normsb[row]
    ensures |dist| == g.dpt
    ensures forall i :: 0 <= i < g.dpt && g.startCol + off + row + i < g.a.nx ==>
      dist[i] == g.a.DistAt(row, g.startCol + off + row + i)
    ensures CovOk(g, off, row + 1, next)
  {
    dist, next := [], cov;
    for i := 0 to g.dpt
      invariant |dist| == i && |next| == g.dpt
      invariant forall k :: i <= k < g.dpt ==> next[k] == cov[k]
      invariant forall k :: 0 <= k < i && g.startCol + off + row + k < g.a.nx ==>
        dist[k] == g.a.DistAt(row, g.startCol + off + row + k)
      invariant forall k :: 0 <= k < i && g.startCol + off + row + k < g.a.nx ==>
        next[k] == g.a.Cov(row, g.startCol + off + row + k)
          + g.a.dfa[g.startCol + off + row + k] * g.a.dgb[row] + g.a.dga[g.startCol + off + row + k] * g.a.dfb[row]
    {
      assert dfc[at..at + g.dpt][i] == dfc[at + i];
      dist := dist + [g.a.Correlate(next[i], inormc[at + i], inormr)];
      next := next[i := next[i] + dfc[at + i] * dgr + dgc[at + i] * dfr];
    }
  }

  /** What flushing `part` does to `entry` when it is guarded by a snapshot `check` of the entry. */
  function FlushChecked(kind: Kind, entry: Entry, part: Entry, check: real): Entry {
    if kind.SumThresh? || part.value > check then Combine(kind, entry, part) else entry
  }

  /** An entry only grows, so a stale snapshot never suppresses a flush that matters. */
  lemma StaleCheckIsSafe(kind: Kind, entry: Entry, part: Entry, check: real)
    requires kind.Nearest? ==> check <= entry.value
    ensures FlushChecked(kind, entry, part, check) == Combine(kind, entry, part)
  {
  }

  // ---------- The checked path ----------

  /** One row, with every cell checked before it is merged. */
  method DoRowEdge(g: Geo, info: Info, sm: Shared, diag: int, numDiags: int, ghost off: nat, ghost tileRow: nat)
      returns (cov: seq<real>, sm': Shared)
    requires g.Valid() && Shaped(g, sm) && Mirrors(g, sm, tileRow) && Seeded(g, tileRow, sm)
    requires At(g, off, tileRow, info) && off + g.dpt <= g.Width() && CovOk(g, off, info.globalRow, info.cov)
    requires info.localRow < g.height && info.globalRow < g.a.ny
    requires diag == g.startCol + off && numDiags == g.a.NumDiags()
    ensures CovOk(g, off, info.globalRow + 1, cov)
    ensures Contributed(g, off, off + g.dpt, tileRow, info.globalRow, info.globalRow + 1, sm, sm')
  {
    hide Gathered, Geo.Width, CovOk;
    ghost var row := info.globalRow;
    var dist;
    dist, cov := Distances(g, info.cov, sm.dfCol, sm.dgCol, sm.inormCol, info.localCol,
      sm.dfRow[info.localRow], sm.dgRow[info.localRow], sm.inormRow[info.localRow], off, row);
    var distRow := InitEntry(g.kind);
    var mp := sm.localMpCol;
    EdgeStart(g, off, tileRow, info, sm, distRow);
    for i := 0 to g.dpt
      invariant |mp| == |sm.localMpCol|
      invariant forall x: nat :: x < |mp| ==>
        ColOk(g, off, off + i, row, row + 1, g.startCol + tileRow + x, sm.localMpCol[x], mp[x])
      invariant RowOk(g, off, off + i, row, row + 1, row, InitEntry(g.kind), distRow)
    {
      var c := info.globalCol + i;
      ghost var was, wasRow := mp, distRow;
      if c < g.a.nx && diag + i < numDiags {
        if g.rows {
          distRow := MergeCell(g.kind, distRow, dist[i], c);
        }
        if g.cols {
          mp := mp[info.localCol + i := MergeCell(g.kind, mp[info.localCol + i], dist[i], info.globalRow)];
        }
        EdgeCell(g, off, tileRow, row, i, sm.localMpCol, was, mp, dist[i]);
        EdgeRowCell(g, off, row, i, wasRow, distRow, dist[i]);
      } else {
        EdgeSkip(g, off, tileRow, row, i, sm.localMpCol, was, distRow);
      }
    }
    sm' := sm.(localMpCol := mp);
    if g.rows {
      var before := sm.localMpRow[info.localRow];
      StaleCheckIsSafe(g.kind, before, distRow, InitDist(g.kind));
      sm' := sm'.(localMpRow :=
        sm.localMpRow[info.localRow := FlushChecked(g.kind, before, distRow, InitDist(g.kind))]);
      EdgeRowFlush(g, off, tileRow, info.localRow, sm.localMpRow, distRow, sm'.localMpRow);
    }
  }

  /** A thread on diagonals `off ..` of the block is at the position it should be in this tile. */
  ghost predicate At(g: Geo, off: nat, tileRow: nat, info: Info) {
    && info.globalRow == tileRow + info.localRow
    && info.globalCol == g.startCol + off + info.globalRow
    && info.localCol == off + info.localRow
  }

  lemma EdgeStart(g: Geo, off: nat, tileRow: nat, info: Info, sm: Shared, distRow: Entry)
    requires g.Valid() && distRow == InitEntry(g.kind)
    ensures forall x: nat :: x < |sm.localMpCol| ==>
      ColOk(g, off, off, info.globalRow, info.globalRow + 1, g.startCol + tileRow + x, sm.localMpCol[x],
        sm.localMpCol[x])
    ensures RowOk(g, off, off, info.globalRow, info.globalRow + 1, info.globalRow, InitEntry(g.kind), distRow)
  {
    hide Gathered, Geo.Width;
    forall x: nat | x < |sm.localMpCol|
      ensures ColOk(g, off, off, info.globalRow, info.globalRow + 1, g.startCol + tileRow + x, sm.localMpCol[x],
        sm.localMpCol[x])
    {
      NoRows(g, off, off, info.globalRow, info.globalRow + 1, g.startCol + tileRow + x, sm.localMpCol[x]);
    }
    if info.globalRow < g.a.ny {
      assert DiagCols(g, off, off, info.globalRow) == {};
      GatherNothing(g.kind, g.a.RowDists(info.globalRow), distRow);
    }
  }

  /** A column without a cell among these rows and diagonals stays as it is. */
  lemma NoRows(g: Geo, lo: int, hi: int, from: int, to: int, c: nat, entry: Entry)
    requires g.Valid() && forall r :: from <= r < to ==> !Diag(g, lo, hi, r, c)
    ensures ColOk(g, lo, hi, from, to, c, entry, entry)
  {
    hide Gathered, Geo.Width, Diag;
    if c < g.a.nx {
      assert DiagRows(g, lo, hi, from, to, c) == {};
      GatherNothing(g.kind, g.a.ColDists(c), entry);
    }
  }

  /** One more diagonal of a row: the column of its cell takes it in, the others have no cell on it. */
  lemma EdgeCell(g: Geo, off: nat, tileRow: nat, row: nat, i: nat, start: seq<Entry>, was: seq<Entry>, now: seq<Entry>,
                 d: Dist)
    requires g.Valid() && |start| == |was| == |now| && tileRow <= row < g.a.ny && off + i < g.Width()
    requires off + row - tileRow + i < |was|
    requires
      var c := g.startCol + off + row + i;
      c < g.a.nx && c - row < g.a.NumDiags() && d == g.a.DistAt(row, c)
    requires now ==
      if g.cols then was[off + row - tileRow + i := MergeCell(g.kind, was[off + row - tileRow + i], d, row)] else was
    requires forall x: nat :: x < |was| ==> ColOk(g, off, off + i, row, row + 1, g.startCol + tileRow + x, start[x],
      was[x])
    ensures forall x: nat :: x < |was| ==> ColOk(g, off, off + i + 1, row, row + 1, g.startCol + tileRow + x, start[x],
      now[x])
  {
    hide Gathered, Geo.Width, MergeCell;
    forall x: nat | x < |was|
      ensures ColOk(g, off, off + i + 1, row, row + 1, g.startCol + tileRow + x, start[x], now[x])
    {
      var c := g.startCol + tileRow + x;
      assert ColOk(g, off, off + i, row, row + 1, c, start[x], was[x]);
      var before, after := DiagRows(g, off, off + i, row, row + 1, c), DiagRows(g, off, off + i + 1, row, row + 1, c);
      if x == off + row - tileRow + i {
        if g.cols {
          GatherOne(g.kind, g.a.ColDists(c), start[x], before, was[x], row);
          assert after == before + {row};
        }
      } else {
        assert after == before;
      }
    }
  }

  lemma EdgeRowCell(g: Geo, off: nat, row: nat, i: nat, was: Entry, now: Entry, d: Dist)
    requires g.Valid() && row < g.a.ny && off + i < g.Width()
    requires
      var c := g.startCol + off + row + i;
      && c < g.a.nx && c - row < g.a.NumDiags() && d == g.a.DistAt(row, c)
      && now == if g.rows then MergeCell(g.kind, was, d, c) else was
    requires RowOk(g, off, off + i, row, row + 1, row, InitEntry(g.kind), was)
    ensures RowOk(g, off, off + i + 1, row, row + 1, row, InitEntry(g.kind), now)
  {
    hide Gathered, Geo.Width, MergeCell;
    var c := g.startCol + off + row + i;
    if g.rows {
      GatherOne(g.kind, g.a.RowDists(row), InitEntry(g.kind), DiagCols(g, off, off + i, row), was, c);
      assert DiagCols(g, off, off + i + 1, row) == DiagCols(g, off, off + i, row) + {c};
    }
  }

  /** A diagonal whose cell fails the check has no cell of the block in this row. */
  lemma EdgeSkip(g: Geo, off: nat, tileRow: nat, row: nat, i: nat, start: seq<Entry>, was: seq<Entry>, distRow: Entry)
    requires g.Valid() && |start| == |was|
    requires g.startCol + off + row + i >= g.a.nx || g.startCol + off + i >= g.a.NumDiags()
    requires forall x: nat :: x < |was| ==> ColOk(g, off, off + i, row, row + 1, g.startCol + tileRow + x, start[x],
      was[x])
    requires RowOk(g, off, off + i, row, row + 1, row, InitEntry(g.kind), distRow)
    ensures forall x: nat :: x < |was| ==> ColOk(g, off, off + i + 1, row, row + 1, g.startCol + tileRow + x, start[x],
      was[x])
    ensures RowOk(g, off, off + i + 1, row, row + 1, row, InitEntry(g.kind), distRow)
  {
    hide Gathered, Geo.Width;
    forall x: nat | x < |was|
      ensures ColOk(g, off, off + i + 1, row, row + 1, g.startCol + tileRow + x, start[x], was[x])
    {
      var c := g.startCol + tileRow + x;
      assert ColOk(g, off, off + i, row, row + 1, c, start[x], was[x]);
      assert DiagRows(g, off, off + i + 1, row, row + 1, c) == DiagRows(g, off, off + i, row, row + 1, c);
    }
    assert DiagCols(g, off, off + i + 1, row) == DiagCols(g, off, off + i, row);
  }

  /** Flushing a row's partial result into the row's element, and into no other. */
  lemma EdgeRowFlush(g: Geo, off: nat, tileRow: nat, l: nat, was: seq<Entry>, part: Entry, now: seq<Entry>)
    requires g.Valid() && g.rows && l < |was| && tileRow + l < g.a.ny
    requires g.kind.Nearest? ==> was[l].value >= InitDist(g.kind)
    requires RowOk(g, off, off + g.dpt, tileRow + l, tileRow + l + 1, tileRow + l, InitEntry(g.kind), part)
    requires now == was[l := Combine(g.kind, was[l], part)]
    ensures forall i: nat :: i < |was| ==>
      RowOk(g, off, off + g.dpt, tileRow + l, tileRow + l + 1, tileRow + i, was[i], now[i])
  {
    hide Gathered, Geo.Width, Combine;
    forall i: nat | i < |was|
      ensures RowOk(g, off, off + g.dpt, tileRow + l, tileRow + l + 1, tileRow + i, was[i], now[i])
    {
      if i == l {
        RowFlush(g, off, off + g.dpt, tileRow + l, was[l], part);
      } else if tileRow + i < g.a.ny {
        GatherNothing(g.kind, g.a.RowDists(tileRow + i), was[i]);
      }
    }
  }

  lemma RowFlush(g: Geo, lo: int, hi: int, row: nat, entry: Entry, part: Entry)
    requires g.Valid() && row < g.a.ny && (g.kind.Nearest? ==> entry.value >= InitDist(g.kind))
    requires Gathered(g.kind, g.a.RowDists(row), InitEntry(g.kind), DiagCols(g, lo, hi, row), part)
    ensures Gathered(g.kind, g.a.RowDists(row), entry, DiagCols(g, lo, hi, row), Combine(g.kind, entry, part))
  {
    hide Gathered, Geo.Width, Combine;
    GatherNothing(g.kind, g.a.RowDists(row), entry);
    GatherCombine(g.kind, g.a.RowDists(row), entry, {}, entry, DiagCols(g, lo, hi, row), part);
    assert {} + DiagCols(g, lo, hi, row) == DiagCols(g, lo, hi, row);
  }

  // ---------- The fast path ----------

  /** When a thread may take the fast path in a tile. */
  predicate FastTile(g: Geo, off: int, tileRow: int) {
    && g.startCol + tileRow + g.Width() + g.height < g.a.nx && tileRow + g.height < g.a.ny
    && g.startCol + off + g.dpt <= g.a.NumDiags()
  }

  /** On a fast tile every check of the edge path passes, for every row and diagonal of the thread. */
  lemma FastGuardsHold(g: Geo, off: nat, tileRow: nat, l: nat, i: nat)
    requires g.Valid() && FastTile(g, off, tileRow) && off + g.dpt <= g.Width() && l < g.height && i < g.dpt
    ensures
      var row := tileRow + l;
      var c := g.startCol + off + row + i;
      row < g.a.ny && c < g.a.nx && g.startCol + off + i < g.a.NumDiags() && Diag(g, off, off + g.dpt, row, c)
  {
    hide Geo.Width;
  }

  /** The column accumulators of one iteration that started at row `first`, once `row` is reached. */
  ghost predicate DistcOk(g: Geo, off: nat, first: nat, row: nat, distc: seq<Entry>)
    requires g.Valid()
  {
    forall q: nat :: q < |distc| ==>
      ColOk(g, off, off + g.dpt, first, row, g.startCol + off + first + q, InitEntry(g.kind), distc[q])
  }

  /** Each distance of a row goes to the accumulator of its column. */
  method MergeToColumn(g: Geo, rowIter: nat, globalRow: nat, bestSoFar: seq<Entry>, dist: seq<Dist>, ghost off: nat)
      returns (best: seq<Entry>)
    requires g.Valid() && off + g.dpt <= g.Width() && globalRow + rowIter < g.a.ny
    requires |dist| == g.dpt && rowIter + g.dpt <= |bestSoFar|
    requires DistcOk(g, off, globalRow, globalRow + rowIter, bestSoFar)
    requires RowOfCells(g, off, globalRow + rowIter, dist)
    ensures |best| == |bestSoFar| && DistcOk(g, off, globalRow, globalRow + rowIter + 1, best)
  {
    hide Gathered, Geo.Width, ColOk, RowOfCells;
    best := bestSoFar;
    for i := 0 to g.dpt
      invariant |best| == |bestSoFar|
      invariant forall q :: 0 <= q < |best| ==>
        best[q] == if rowIter <= q < rowIter + i
                   then MergeCell(g.kind, bestSoFar[q], dist[q - rowIter], globalRow + rowIter) else bestSoFar[q]
    {
      best := best[rowIter + i := MergeCell(g.kind, best[rowIter + i], dist[i], globalRow + rowIter)];
    }
    forall q: nat | q < |best|
      ensures ColOk(g, off, off + g.dpt, globalRow, globalRow + rowIter + 1, g.startCol + off + globalRow + q,
                InitEntry(g.kind), best[q])
    {
      AccumulatorStep(g, off, globalRow, rowIter, bestSoFar[q], dist, q);
    }
  }

  /** The distances of a thread's row, all of them cells of the block. */
  ghost predicate RowOfCells(g: Geo, off: nat, row: nat, dist: seq<Dist>)
    requires g.Valid() && row < g.a.ny && |dist| == g.dpt
  {
    forall i: nat :: i < g.dpt ==> CellAt(g, off, row, i, dist[i])
  }

  ghost predicate CellAt(g: Geo, off: nat, row: nat, i: nat, d: Dist)
    requires g.Valid() && row < g.a.ny
  {
    var c := g.startCol + off + row + i;
    Diag(g, off, off + g.dpt, row, c) && d == g.a.DistAt(row, c)
  }

  lemma CellOfRow(g: Geo, off: nat, row: nat, dist: seq<Dist>, i: nat)
    requires g.Valid() && row < g.a.ny && |dist| == g.dpt && i < g.dpt && RowOfCells(g, off, row, dist)
    ensures
      var c := g.startCol + off + row + i;
      c < g.a.nx && Diag(g, off, off + g.dpt, row, c) && dist[i] == g.a.DistAt(row, c)
  {
    hide Geo.Width;
    assert CellAt(g, off, row, i, dist[i]);
  }

  lemma AccumulatorStep(g: Geo, off: nat, first: nat, k: nat, was: Entry, dist: seq<Dist>, q: nat)
    requires g.Valid() && off + g.dpt <= g.Width() && first + k < g.a.ny && |dist| == g.dpt
    requires RowOfCells(g, off, first + k, dist)
    requires ColOk(g, off, off + g.dpt, first, first + k, g.startCol + off + first + q, InitEntry(g.kind), was)
    ensures ColOk(g, off, off + g.dpt, first, first + k + 1, g.startCol + off + first + q, InitEntry(g.kind),
              if k <= q < k + g.dpt then MergeCell(g.kind, was, dist[q - k], first + k) else was)
  {
    hide Gathered, Geo.Width, MergeCell;
    var c, row := g.startCol + off + first + q, first + k;
    var before, after := DiagRows(g, off, off + g.dpt, first, row, c), DiagRows(g, off, off + g.dpt, first, row + 1, c);
    if k <= q < k + g.dpt {
      CellOfRow(g, off, row, dist, q - k);
      assert after == before + {row};
      if g.cols {
        GatherOne(g.kind, g.a.ColDists(c), InitEntry(g.kind), before, was, row);
      }
    } else {
      assert after == before;
    }
  }

  // ---------- One row's partial result ----------

  /** The largest distance of a row and where it is; -2 if no distance exceeds that. */
  method MaxDist(dist: seq<Dist>) returns (ret: real, idx: nat)
    ensures ret >= -2.0 && forall i :: 0 <= i < |dist| && dist[i].Corr? ==> dist[i].v <= ret
    ensures ret > -2.0 ==> idx < |dist| && dist[idx] == Corr(ret)
  {
    ret, idx := -2.0, 0;
    if |dist| > 4 {
      var max;
      max, idx := MaxCoeff(dist);
      if max.Corr? && max.v > ret {
        ret := max.v;
      }
    } else {
      for i := 0 to |dist|
        invariant ret >= -2.0 && forall k :: 0 <= k < i && dist[k].Corr? ==> dist[k].v <= ret
        invariant ret > -2.0 ==> idx < |dist| && dist[idx] == Corr(ret)
      {
        if dist[i].Corr? && dist[i].v > ret {
          ret, idx := dist[i].v, i;
        }
      }
    }
  }

  /** The maximum that ignores NaN unless there is nothing else. */
  method MaxCoeff(dist: seq<Dist>) returns (max: Dist, idx: nat)
    requires |dist| > 0
    ensures idx < |dist| && max == dist[idx]
    ensures forall i :: 0 <= i < |dist| && dist[i].Corr? ==> max.Corr? && dist[i].v <= max.v
  {
    max, idx := dist[0], 0;
    for k := 1 to |dist|
      invariant idx < |dist| && max == dist[idx]
      invariant forall i :: 0 <= i < k && dist[i].Corr? ==> max.Corr? && dist[i].v <= max.v
    {
      if dist[k].Corr? && (max.NoValue? || dist[k].v > max.v) {
        max, idx := dist[k], k;
      }
    }
  }

  /** A row's partial result takes in the whole row of distances. */
  method MergeToRow(g: Geo, rowIter: nat, globalCol: nat, dist: seq<Dist>, distr: Entry, ghost off: nat, ghost row: nat)
      returns (now: Entry)
    requires g.Valid() && off + g.dpt <= g.Width() && row < g.a.ny && |dist| == g.dpt
    requires distr == InitEntry(g.kind) && globalCol + rowIter == g.startCol + off + row
    requires RowOfCells(g, off, row, dist)
    ensures Gathered(g.kind, g.a.RowDists(row), InitEntry(g.kind), DiagCols(g, off, off + g.dpt, row), now)
  {
    if g.kind.Nearest? {
      var d, idx := MaxDist(dist);
      idx := idx + globalCol + rowIter;
      now := if d > distr.value then Entry(d, idx) else distr;
      RowMaximum(g, off, row, dist, d, idx, now);
    } else {
      now := distr;
      RowSumStart(g, off, row);
      for i := 0 to g.dpt
        invariant Gathered(g.kind, g.a.RowDists(row), InitEntry(g.kind), DiagCols(g, off, off + i, row), now)
        invariant now.index == distr.index
      {
        RowSumStep(g, off, row, dist, i, now);
        now := now.(value := now.value + Selected(g.kind.threshold, dist[i]));
      }
    }
  }

  lemma RowMaximum(g: Geo, off: nat, row: nat, dist: seq<Dist>, d: real, idx: nat, now: Entry)
    requires g.Valid() && g.kind.Nearest? && off + g.dpt <= g.Width() && row < g.a.ny && |dist| == g.dpt
    requires RowOfCells(g, off, row, dist)
    requires d >= -2.0 && forall i :: 0 <= i < |dist| && dist[i].Corr? ==> dist[i].v <= d
    requires
      var i := idx - (g.startCol + off + row);
      d > -2.0 ==> 0 <= i < |dist| && dist[i] == Corr(d)
    requires now == if d > -2.0 then Entry(d, idx) else InitEntry(g.kind)
    ensures Gathered(g.kind, g.a.RowDists(row), InitEntry(g.kind), DiagCols(g, off, off + g.dpt, row), now)
  {
    hide Geo.Width;
    var f, first := g.a.RowDists(row), g.startCol + off + row;
    forall c | c in DiagCols(g, off, off + g.dpt, row) && f[c].Corr? ensures f[c].v <= now.value {
      CellOfRow(g, off, row, dist, c - first);
    }
    if d > -2.0 {
      CellOfRow(g, off, row, dist, idx - first);
    }
  }

  lemma RowSumStart(g: Geo, off: nat, row: nat)
    requires g.Valid() && row < g.a.ny
    ensures Gathered(g.kind, g.a.RowDists(row), InitEntry(g.kind), DiagCols(g, off, off, row), InitEntry(g.kind))
  {
    hide Gathered, Geo.Width;
    assert DiagCols(g, off, off, row) == {};
    GatherNothing(g.kind, g.a.RowDists(row), InitEntry(g.kind));
  }

  lemma RowSumStep(g: Geo, off: nat, row: nat, dist: seq<Dist>, i: nat, was: Entry)
    requires g.Valid() && off + g.dpt <= g.Width() && row < g.a.ny && |dist| == g.dpt && i < g.dpt
    requires RowOfCells(g, off, row, dist)
    requires Gathered(g.kind, g.a.RowDists(row), InitEntry(g.kind), DiagCols(g, off, off + i, row), was)
    ensures Gathered(g.kind, g.a.RowDists(row), InitEntry(g.kind), DiagCols(g, off, off + i + 1, row),
              MergeCell(g.kind, was, dist[i], g.startCol + off + row + i))
  {
    hide Gathered, Geo.Width, MergeCell;
    var c := g.startCol + off + row + i;
    CellOfRow(g, off, row, dist, i);
    GatherOne(g.kind, g.a.RowDists(row), InitEntry(g.kind), DiagCols(g, off, off + i, row), was, c);
    assert DiagCols(g, off, off + i + 1, row) == DiagCols(g, off, off + i, row) + {c};
  }

  // ---------- One iteration of the fast path ----------

  /** One row of the fast path, from the registers of the window. */
  method DoRow(g: Geo, outerRowIter: nat, rowIter: nat, info: Info, distc: seq<Entry>, distr: Entry,
               inormc: seq<Norm>, dfc: seq<real>, dgc: seq<real>, inormr: Norm, dfr: real, dgr: real,
               ghost off: nat, ghost tileRow: nat)
      returns (cov: seq<real>, distc': seq<Entry>, distr': Entry)
    requires g.Valid() && At(g, off, tileRow, info) && off + g.dpt <= g.Width() && FastTile(g, off, tileRow)
    requires info.localRow + outerRowIter < g.height && CovOk(g, off, info.globalRow + outerRowIter, info.cov)
    requires rowIter + g.dpt <= |dfc| == |dgc| == |inormc| && outerRowIter + g.dpt <= |distc|
    requires ColData(g, off + info.globalRow + outerRowIter, dfc[rowIter..rowIter + g.dpt],
      dgc[rowIter..rowIter + g.dpt],
               inormc[rowIter..rowIter + g.dpt])
    requires
      var row := info.globalRow + outerRowIter;
      row < g.a.ny && dfr == g.a.dfb[row] && dgr == g.a.dgb[row] && inormr == g.a.normsb[row]
    requires DistcOk(g, off, info.globalRow, info.globalRow + outerRowIter, distc) && distr == InitEntry(g.kind)
    ensures CovOk(g, off, info.globalRow + outerRowIter + 1, cov)
    ensures |distc'| == |distc| && DistcOk(g, off, info.globalRow, info.globalRow + outerRowIter + 1, distc')
    ensures g.rows ==>
      Gathered(g.kind, g.a.RowDists(info.globalRow + outerRowIter), InitEntry(g.kind),
        DiagCols(g, off, off + g.dpt, info.globalRow + outerRowIter), distr')
  {
    hide Gathered, Geo.Width, CovOk, ColData, DistcOk, FastTile;
    ghost var row := info.globalRow + outerRowIter;
    var dist;
    dist, cov := Distances(g, info.cov, dfc, dgc, inormc, rowIter, dfr, dgr, inormr, off, row);
    FastRow(g, off, tileRow, info.localRow + outerRowIter, dist);
    distc', distr' := distc, distr;
    if g.cols {
      distc' := MergeToColumn(g, outerRowIter, info.globalRow, distc, dist, off);
    } else {
      NoColumnsKept(g, off, info.globalRow, row, distc);
    }
    if g.rows {
      distr' := MergeToRow(g, outerRowIter, info.globalCol, dist, distr, off, row);
    }
  }

  lemma NoColumnsKept(g: Geo, off: nat, first: nat, row: nat, distc: seq<Entry>)
    requires g.Valid() && !g.cols
    ensures DistcOk(g, off, first, row + 1, distc)
  {
  }

  lemma FastRow(g: Geo, off: nat, tileRow: nat, l: nat, dist: seq<Dist>)
    requires g.Valid() && FastTile(g, off, tileRow) && off + g.dpt <= g.Width() && l < g.height && |dist| == g.dpt
    requires tileRow + l < g.a.ny
    requires forall i :: 0 <= i < g.dpt && g.startCol + off + (tileRow + l) + i < g.a.nx ==>
      dist[i] == g.a.DistAt(tileRow + l, g.startCol + off + (tileRow + l) + i)
    ensures RowOfCells(g, off, tileRow + l, dist)
  {
    hide Geo.Width, FastTile;
    var row := tileRow + l;
    forall i: nat | i < g.dpt ensures CellAt(g, off, row, i, dist[i]) {
      FastGuardsHold(g, off, tileRow, l, i);
    }
  }
}
