/** The minefield of model/Board.java as a value: the grid of cells, the placement of mines
    (from random draws or from a transmitted list), the mine list, adjacency counting,
    flag toggling and the recursive flood-fill reveal. The class Boards.Board runs the
    same operations in place over an array and is proved equal to these functions. */
module Minefield {
  import opened Cells

  /** `Board.DEFAULT_SIZE` and `Board.DEFAULT_MINES`. */
  const DEFAULT_SIZE: nat := 10
  const DEFAULT_MINES: int := 20

  /** `Board.MinePosition`: row `x`, column `y`. */
  datatype Pos = Pos(x: int, y: int)

  /** `cells[x][y]`: `size` rows of `size` cells. */
  type Grid = seq<seq<Cell>>

  predicate IsGrid(g: Grid)
  {
    forall i :: 0 <= i < |g| ==> |g[i]| == |g|
  }

  /** `isValidPosition` */
  predicate InRange(g: Grid, x: int, y: int)
  {
    0 <= x < |g| && 0 <= y < |g|
  }

  /** (p, q) lies in the 3x3 block centred on (x, y), centre included. */
  predicate Near(x: int, y: int, p: int, q: int)
  {
    x - 1 <= p <= x + 1 && y - 1 <= q <= y + 1
  }

  /** The cells that hold a mine. */
  function MineSet(g: Grid): set<Pos>
    requires IsGrid(g)
  {
    set p, q | 0 <= p < |g| && 0 <= q < |g| && g[p][q].isMine :: Pos(p, q)
  }

  /** The mined cells among the in-range 8 neighbours of (x, y). */
  function MinedAround(g: Grid, x: int, y: int): set<Pos>
    requires IsGrid(g)
  {
    set p, q | 0 <= p < |g| && 0 <= q < |g| && Near(x, y, p, q) && !(p == x && q == y) && g[p][q].isMine :: Pos(p, q)
  }

  /** Every cell that is not a mine counts exactly the mines among its neighbours. */
  predicate AdjacencyCorrect(g: Grid)
    requires IsGrid(g)
  {
    forall x, y :: 0 <= x < |g| && 0 <= y < |g| && !g[x][y].isMine ==> g[x][y].adjacentMines == |MinedAround(g, x, y)|
  }

  predicate SameMines(g: Grid, h: Grid)
    requires IsGrid(g) && IsGrid(h)
  {
    |g| == |h| && forall i, j :: 0 <= i < |g| && 0 <= j < |g| ==> g[i][j].isMine == h[i][j].isMine
  }

  lemma SameMinesSameAround(g: Grid, h: Grid)
    requires IsGrid(g) && IsGrid(h) && SameMines(g, h)
    ensures MineSet(g) == MineSet(h)
    ensures forall x, y :: MinedAround(g, x, y) == MinedAround(h, x, y)
  {
    forall x, y ensures MinedAround(g, x, y) == MinedAround(h, x, y) {
      forall p | p in MinedAround(g, x, y) ensures p in MinedAround(h, x, y) {
        assert h[p.x][p.y].isMine;
      }
      forall p | p in MinedAround(h, x, y) ensures p in MinedAround(g, x, y) {
        assert g[p.x][p.y].isMine;
      }
    }
    forall p | p in MineSet(g) ensures p in MineSet(h) {
      assert h[p.x][p.y].isMine;
    }
    forall p | p in MineSet(h) ensures p in MineSet(g) {
      assert g[p.x][p.y].isMine;
    }
  }

  /** A grid of `n` x `n` new cells, as `initializeCells` builds it. */
  function FreshGrid(n: nat): (g: Grid)
    ensures IsGrid(g) && |g| == n
    ensures forall i, j :: 0 <= i < n && 0 <= j < n ==> g[i][j] == NewCell()
  {
    seq(n, i => seq(n, j => NewCell()))
  }

  /** `g` with cell (x, y) replaced by `c`. */
  function SetCell(g: Grid, x: int, y: int, c: Cell): (r: Grid)
    requires IsGrid(g) && InRange(g, x, y)
    ensures IsGrid(r) && |r| == |g| && r[x][y] == c
    ensures forall i, j :: 0 <= i < |g| && 0 <= j < |g| && !(i == x && j == y) ==> r[i][j] == g[i][j]
  {
    g[x := g[x][y := c]]
  }

  // ---------------------------------------------------------------------------------------
  // Mine placement
  // ---------------------------------------------------------------------------------------

  /** `calculateAdjacentMines` applied to one cell: mines are left alone. */
  function Counted(g: Grid, i: int, j: int): Cell
    requires IsGrid(g) && InRange(g, i, j)
  {
    if g[i][j].isMine then g[i][j] else g[i][j].SetAdjacentMines(|MinedAround(g, i, j)|)
  }

  /** `calculateAdjacentMines`: every non-mine cell gets the count of its mined neighbours. */
  function WithAdjacency(g: Grid): (r: Grid)
    requires IsGrid(g)
    ensures IsGrid(r) && SameMines(g, r) && AdjacencyCorrect(r)
    ensures forall i, j :: InRange(g, i, j) ==>
      r[i][j].isRevealed == g[i][j].isRevealed && r[i][j].isFlagged == g[i][j].isFlagged
    ensures forall i, j :: InRange(g, i, j) && g[i][j].isMine ==> r[i][j] == g[i][j]
    ensures forall i, j :: InRange(g, i, j) ==> r[i][j] == Counted(g, i, j)
  {
    var r := seq(|g|, i requires 0 <= i < |g| => seq(|g|, j requires 0 <= j < |g| => Counted(g, i, j)));
    assert forall i, j :: InRange(g, i, j) ==> r[i][j] == Counted(g, i, j);
    SameMinesSameAround(g, r);
    r
  }

  /** The grid whose mine cells are exactly the in-range members of `s`. */
  function WithMines(g: Grid, s: set<Pos>): (r: Grid)
    requires IsGrid(g)
    ensures IsGrid(r) && |r| == |g|
    ensures forall i, j :: InRange(g, i, j) ==> r[i][j] == g[i][j].SetMine(Pos(i, j) in s)
  {
    seq(|g|, i requires 0 <= i < |g| => seq(|g|, j requires 0 <= j < |g| => g[i][j].SetMine(Pos(i, j) in s)))
  }

  /** The draws the `placeMines` loop accepts: anything but the first click. */
  function Eligible(draws: seq<Pos>, first: Pos): set<Pos>
  {
    set d | d in draws && d != first
  }

  /** The loop of `placeMines` from draw `k` on, with the cells of `acc` mined so far and
      the counter at `placed`: take draws in order, skipping the first-click cell and cells
      already mined, until `need` cells are mined. */
  function TakeMines(draws: seq<Pos>, k: nat, first: Pos, need: int, acc: set<Pos>, placed: int): set<Pos>
    requires k <= |draws|
    decreases |draws| - k
  {
    if need <= placed || k == |draws| then acc
    else if draws[k] != first && draws[k] !in acc then TakeMines(draws, k + 1, first, need, acc + {draws[k]}, placed + 1)
    else TakeMines(draws, k + 1, first, need, acc, placed)
  }

  /** The same loop stops within the draws: the counter reaches `need` before they run out. */
  predicate Finishes(draws: seq<Pos>, k: nat, first: Pos, need: int, acc: set<Pos>, placed: int)
    requires k <= |draws|
    decreases |draws| - k
  {
    if need <= placed then true
    else if k == |draws| then false
    else if draws[k] != first && draws[k] !in acc then Finishes(draws, k + 1, first, need, acc + {draws[k]}, placed + 1)
    else Finishes(draws, k + 1, first, need, acc, placed)
  }

  /** The eligible draws from `k` on: draw `k` if it is not the first click, then the rest. */
  lemma EligibleStep(draws: seq<Pos>, k: nat, first: Pos)
    requires k < |draws|
    ensures Eligible(draws[k..], first) == (if draws[k] != first then {draws[k]} else {}) + Eligible(draws[k + 1..], first)
  {
    assert draws[k..] == [draws[k]] + draws[k + 1..];
  }

  /** With enough eligible draws the loop stops, having mined exactly `need` cells, never the
      first click, and only cells that were drawn. */
  lemma {:induction false} TakeMinesOutcome(draws: seq<Pos>, k: nat, first: Pos, need: int, acc: set<Pos>)
    requires k <= |draws| && |acc| <= need <= |acc + Eligible(draws[k..], first)|
    requires first !in acc
    ensures Finishes(draws, k, first, need, acc, |acc|)
    ensures var r := TakeMines(draws, k, first, need, acc, |acc|);
      |r| == need && acc <= r && r <= acc + Eligible(draws[k..], first) && first !in r
    decreases |draws| - k
  {
    if need <= |acc| || k == |draws| {
    } else {
      var d := draws[k];
      EligibleStep(draws, k, first);
      if d != first && d !in acc {
        assert (acc + {d}) + Eligible(draws[k + 1..], first) == acc + Eligible(draws[k..], first);
        assert |acc + {d}| == |acc| + 1;
        TakeMinesOutcome(draws, k + 1, first, need, acc + {d});
      } else {
        assert acc + Eligible(draws[k + 1..], first) == acc + Eligible(draws[k..], first);
        TakeMinesOutcome(draws, k + 1, first, need, acc);
      }
    }
  }

  /** Enough eligible draws make the loop of `placeMines` stop within them. */
  lemma DrawsSuffice(draws: seq<Pos>, first: Pos, need: int)
    requires need <= |Eligible(draws, first)|
    ensures Finishes(draws, 0, first, need, {}, 0)
  {
    if 0 < need {
      assert {} + Eligible(draws[0..], first) == Eligible(draws, first) by {
        assert draws[0..] == draws;
      }
      TakeMinesOutcome(draws, 0, first, need, {});
    }
  }

  // ---------------------------------------------------------------------------------------
  // The board as a value
  // ---------------------------------------------------------------------------------------

  /** The state of a `Board`: `size`, `numberOfMines`, the cells and `minesPlaced`. */
  datatype Minefield = Minefield(size: nat, numberOfMines: int, grid: Grid, minesPlaced: bool)
  {
    /** The board invariant: the grid is `size` x `size`, every non-mine cell's count is
        exact, and before placement there is no mine (so every count is zero). */
    predicate Valid()
    {
      IsGrid(grid) && |grid| == size && AdjacencyCorrect(grid)
      && (!minesPlaced ==> MineSet(grid) == {})
    }
  }

  /** `new Board(size, numberOfMines)` */
  function NewMinefield(size: nat, numberOfMines: int): (m: Minefield)
    ensures m.Valid() && !m.minesPlaced && m.size == size && m.numberOfMines == numberOfMines
    ensures forall i, j :: 0 <= i < size && 0 <= j < size ==> m.grid[i][j] == NewCell()
  {
    var m := Minefield(size, numberOfMines, FreshGrid(size), false);
    assert MineSet(m.grid) == {};
    assert forall x, y :: MinedAround(m.grid, x, y) == {};
    m
  }

  /** `new Board()` */
  function DefaultMinefield(): (m: Minefield)
    ensures m == NewMinefield(DEFAULT_SIZE, DEFAULT_MINES)
    ensures m.size == 10 && m.numberOfMines == 20 && m.Valid() && !m.minesPlaced
  {
    NewMinefield(DEFAULT_SIZE, DEFAULT_MINES)
  }

  predicate DrawsInRange(g: Grid, draws: seq<Pos>)
  {
    forall k :: 0 <= k < |draws| ==> InRange(g, draws[k].x, draws[k].y)
  }

  /** What `placeMines` needs to end: the random draws (here an oracle sequence) are in range
      and hold at least `numberOfMines` distinct cells other than the first click. */
  predicate EnoughDraws(m: Minefield, first: Pos, draws: seq<Pos>)
  {
    DrawsInRange(m.grid, draws) && m.numberOfMines <= |Eligible(draws, first)|
  }

  /** `placeMines(first.x, first.y)` with the random draws supplied as `draws`. */
  function PlaceMines(m: Minefield, first: Pos, draws: seq<Pos>): Minefield
    requires m.Valid()
  {
    if m.minesPlaced then m
    else
      var mines := TakeMines(draws, 0, first, m.numberOfMines, {}, 0);
      m.(grid := WithAdjacency(WithMines(m.grid, mines)), minesPlaced := true)
  }

  predicate PositionsInRange(g: Grid, positions: seq<Pos>)
  {
    forall k :: 0 <= k < |positions| ==> InRange(g, positions[k].x, positions[k].y)
  }

  /** `placeMinesFromPositions(positions)` */
  function PlaceMinesFromPositions(m: Minefield, positions: seq<Pos>): Minefield
    requires m.Valid()
  {
    if m.minesPlaced then m
    else m.(grid := WithAdjacency(WithMines(m.grid, set p | p in positions)), minesPlaced := true)
  }

  /** The mines of row `i` in columns below `j`, left to right. */
  function RowMines(g: Grid, i: int, j: nat): seq<Pos>
    requires IsGrid(g) && 0 <= i < |g| && j <= |g|
  {
    if j == 0 then [] else RowMines(g, i, j - 1) + (if g[i][j - 1].isMine then [Pos(i, j - 1)] else [])
  }

  /** The mines of the rows below `i`, in row-major order. */
  function MinesBefore(g: Grid, i: nat): seq<Pos>
    requires IsGrid(g) && i <= |g|
  {
    if i == 0 then [] else MinesBefore(g, i - 1) + RowMines(g, i - 1, |g|)
  }

  /** `getMinePositions` */
  function MinePositions(g: Grid): seq<Pos>
    requires IsGrid(g)
  {
    MinesBefore(g, |g|)
  }

  /** Row-major order on positions. */
  predicate Before(a: Pos, b: Pos)
  {
    a.x < b.x || (a.x == b.x && a.y < b.y)
  }

  predicate StrictlySorted(s: seq<Pos>)
  {
    forall k, l :: 0 <= k < l < |s| ==> Before(s[k], s[l])
  }

  // ---------------------------------------------------------------------------------------
  // Flags, reveal and the win condition
  // ---------------------------------------------------------------------------------------

  /** `toggleFlag(x, y)` */
  function ToggleFlag(g: Grid, x: int, y: int): Grid
    requires IsGrid(g)
  {
    if InRange(g, x, y) && !g[x][y].isRevealed then SetCell(g, x, y, g[x][y].SetFlagged(!g[x][y].isFlagged))
    else g
  }

  /** The number of hidden cells in a row. */
  function HiddenIn(row: seq<Cell>): nat
  {
    if row == [] then 0 else HiddenIn(row[..|row| - 1]) + if row[|row| - 1].isRevealed then 0 else 1
  }

  /** The number of hidden cells; the flood fill's termination measure. */
  function Hidden(g: Grid): nat
  {
    if g == [] then 0 else Hidden(g[..|g| - 1]) + HiddenIn(g[|g| - 1])
  }

  /** `r` is `g` with some cells turned revealed and nothing else changed. */
  predicate OnlyRevealed(g: Grid, r: Grid)
    requires IsGrid(g) && IsGrid(r)
  {
    |r| == |g| && forall i, j :: 0 <= i < |g| && 0 <= j < |g| ==> MoreRevealed(g[i][j], r[i][j])
  }

  /** `d` is `c`, possibly turned revealed. */
  predicate MoreRevealed(c: Cell, d: Cell)
  {
    d.isMine == c.isMine && d.isFlagged == c.isFlagged && d.adjacentMines == c.adjacentMines
    && (c.isRevealed ==> d.isRevealed)
  }

  /** No flagged cell was revealed on the way from `g` to `r`. */
  predicate FlagsRespected(g: Grid, r: Grid)
    requires IsGrid(g) && IsGrid(r) && |r| == |g|
  {
    forall i, j :: 0 <= i < |g| && 0 <= j < |g| && r[i][j].isRevealed && !g[i][j].isRevealed ==> !g[i][j].isFlagged
  }

  lemma {:induction false} HiddenInUpdate(row: seq<Cell>, k: int, c: Cell)
    requires 0 <= k < |row|
    ensures HiddenIn(row[k := c]) + (if row[k].isRevealed then 0 else 1) == HiddenIn(row) + (if c.isRevealed then 0 else 1)
    decreases |row|
  {
    var n := |row| - 1;
    if k < n {
      assert row[k := c][..n] == row[..n][k := c];
      HiddenInUpdate(row[..n], k, c);
    } else {
      assert row[k := c][..n] == row[..n];
    }
  }

  lemma {:induction false} HiddenUpdate(g: Grid, k: int, row: seq<Cell>)
    requires 0 <= k < |g|
    ensures Hidden(g[k := row]) + HiddenIn(g[k]) == Hidden(g) + HiddenIn(row)
    decreases |g|
  {
    var n := |g| - 1;
    if k < n {
      assert g[k := row][..n] == g[..n][k := row];
      HiddenUpdate(g[..n], k, row);
    } else {
      assert g[k := row][..n] == g[..n];
    }
  }

  /** Revealing one hidden cell leaves one hidden cell fewer. */
  lemma RevealOneHides(g: Grid, x: int, y: int)
    requires IsGrid(g) && InRange(g, x, y)
    ensures Hidden(SetCell(g, x, y, g[x][y].SetRevealed(true))) + (if g[x][y].isRevealed then 0 else 1) == Hidden(g)
  {
    HiddenInUpdate(g[x], y, g[x][y].SetRevealed(true));
    HiddenUpdate(g, x, g[x][y := g[x][y].SetRevealed(true)]);
  }

  /** The termination measure of `Reveal`: one more while the target is already revealed,
      since the call then re-expands without revealing anything first. */
  function RevealRank(g: Grid, x: int, y: int): nat
    requires IsGrid(g)
  {
    Hidden(g) + if InRange(g, x, y) && g[x][y].isRevealed then 1 else 0
  }

  /** A revealed cell of this kind makes the flood fill spread: no mine, no mined neighbour. */
  predicate Spreads(c: Cell)
  {
    c.adjacentMines == 0 && !c.isMine
  }

  /** `Board.revealCell(x, y)`: out of range or flagged does nothing; otherwise reveal the
      cell and, when it is an empty non-mine cell, recurse into each in-range hidden
      neighbour in the order of the two nested loops. */
  function Reveal(g: Grid, x: int, y: int): (r: Grid)
    requires IsGrid(g)
    ensures IsGrid(r) && |r| == |g| && Hidden(r) <= Hidden(g)
    decreases RevealRank(g, x, y), 1, 0, 0
  {
    if InRange(g, x, y) && !g[x][y].isFlagged then
      var g1 := SetCell(g, x, y, g[x][y].SetRevealed(true));
      RevealOneHides(g, x, y);
      if Spreads(g1[x][y]) then Expand(g1, x, y, -1, -1) else g1
    else g
  }

  /** One round of the nested neighbour loops of `Board.revealCell`: recurse into (p, q) when it
      is in range and hidden. */
  function Visit(g: Grid, p: int, q: int): (r: Grid)
    requires IsGrid(g)
    ensures IsGrid(r) && |r| == |g| && Hidden(r) <= Hidden(g)
    decreases Hidden(g), 1, 1, 0
  {
    if InRange(g, p, q) && !g[p][q].isRevealed then Reveal(g, p, q) else g
  }

  /** The offset the nested neighbour loops visit after (i, j). */
  function NextRow(i: int, j: int): int
  {
    if j == 1 then i + 1 else i
  }

  function NextCol(j: int): int
  {
    if j == 1 then -1 else j + 1
  }

  /** The nested neighbour loops of `Board.revealCell`, from offset (i, j) on. */
  function Expand(g: Grid, x: int, y: int, i: int, j: int): (r: Grid)
    requires IsGrid(g) && -1 <= i <= 2 && -1 <= j <= 1
    ensures IsGrid(r) && |r| == |g| && Hidden(r) <= Hidden(g)
    decreases Hidden(g), 2, 2 - i, 1 - j
  {
    if i == 2 then g
    else
      var i', j' := NextRow(i, j), NextCol(j);
      Expand(Visit(g, x + i, y + j), x, y, i', j')
  }

  /** One round of the neighbour loops, unfolded. */
  lemma ExpandUnfold(g: Grid, x: int, y: int, i: int, j: int)
    requires IsGrid(g) && -1 <= i < 2 && -1 <= j <= 1
    ensures Expand(g, x, y, i, j) == Expand(Visit(g, x + i, y + j), x, y, NextRow(i, j), NextCol(j))
  {
  }

  lemma OnlyRevealedTrans(a: Grid, b: Grid, c: Grid)
    requires IsGrid(a) && IsGrid(b) && IsGrid(c) && OnlyRevealed(a, b) && OnlyRevealed(b, c)
    ensures OnlyRevealed(a, c)
  {
  }

  lemma FlagsRespectedTrans(a: Grid, b: Grid, c: Grid)
    requires IsGrid(a) && IsGrid(b) && IsGrid(c) && OnlyRevealed(a, b) && OnlyRevealed(b, c)
    requires FlagsRespected(a, b) && FlagsRespected(b, c)
    ensures FlagsRespected(a, c)
  {
    forall i, j | 0 <= i < |a| && 0 <= j < |a| && c[i][j].isRevealed && !a[i][j].isRevealed
      ensures !a[i][j].isFlagged
    {
      assert MoreRevealed(a[i][j], b[i][j]);
    }
  }

  /** `revealCell` changes nothing but `isRevealed`, never reveals a flagged cell, and leaves
      its target revealed when that is in range and unflagged. */
  lemma {:induction false} RevealOnlyReveals(g: Grid, x: int, y: int)
    requires IsGrid(g)
    ensures OnlyRevealed(g, Reveal(g, x, y)) && FlagsRespected(g, Reveal(g, x, y))
    ensures InRange(g, x, y) && !g[x][y].isFlagged ==> Reveal(g, x, y)[x][y].isRevealed
    decreases RevealRank(g, x, y), 1, 0, 0
  {
    if InRange(g, x, y) && !g[x][y].isFlagged {
      var g1 := SetCell(g, x, y, g[x][y].SetRevealed(true));
      RevealOneHides(g, x, y);
      assert OnlyRevealed(g, g1) && FlagsRespected(g, g1);
      if Spreads(g1[x][y]) {
        var r: Grid := Expand(g1, x, y, -1, -1);
        ExpandOnlyReveals(g1, x, y, -1, -1);
        OnlyRevealedTrans(g, g1, r);
        FlagsRespectedTrans(g, g1, r);
        assert MoreRevealed(g1[x][y], r[x][y]);
      }
    }
  }

  lemma {:induction false} VisitOnlyReveals(g: Grid, p: int, q: int)
    requires IsGrid(g)
    ensures OnlyRevealed(g, Visit(g, p, q)) && FlagsRespected(g, Visit(g, p, q))
    decreases Hidden(g), 1, 1, 0
  {
    if InRange(g, p, q) && !g[p][q].isRevealed {
      RevealOnlyReveals(g, p, q);
    }
  }

  /** The fill always reveals its own target when that is in range and unflagged. */
  lemma RevealTarget(g: Grid, x: int, y: int)
    requires IsGrid(g) && InRange(g, x, y) && !g[x][y].isFlagged
    ensures Reveal(g, x, y)[x][y].isRevealed
  {
    RevealOnlyReveals(g, x, y);
  }

  /** One cell under the fill: it only ever turns revealed. */
  lemma RevealMoreRevealedAt(g: Grid, x: int, y: int, c: Pos)
    requires IsGrid(g) && InRange(g, c.x, c.y)
    ensures MoreRevealed(g[c.x][c.y], Reveal(g, x, y)[c.x][c.y])
  {
    RevealOnlyReveals(g, x, y);
  }

  lemma {:induction false} ExpandOnlyReveals(g: Grid, x: int, y: int, i: int, j: int)
    requires IsGrid(g) && -1 <= i <= 2 && -1 <= j <= 1
    ensures OnlyRevealed(g, Expand(g, x, y, i, j)) && FlagsRespected(g, Expand(g, x, y, i, j))
    decreases Hidden(g), 2, 2 - i, 1 - j
  {
    if i < 2 {
      var g': Grid := Visit(g, x + i, y + j);
      var i', j' := NextRow(i, j), NextCol(j);
      VisitOnlyReveals(g, x + i, y + j);
      ExpandOnlyReveals(g', x, y, i', j');
      OnlyRevealedTrans(g, g', Expand(g', x, y, i', j'));
      FlagsRespectedTrans(g, g', Expand(g', x, y, i', j'));
    }
  }

  /** A row in which cells only turned revealed has no more hidden cells than before. */
  lemma {:induction false} HiddenInMonotone(a: seq<Cell>, b: seq<Cell>)
    requires |a| == |b| && forall k :: 0 <= k < |a| ==> (a[k].isRevealed ==> b[k].isRevealed)
    ensures HiddenIn(b) <= HiddenIn(a)
    decreases |a|
  {
    if a != [] {
      HiddenInMonotone(a[..|a| - 1], b[..|b| - 1]);
    }
  }

  lemma {:induction false} HiddenRowsMonotone(g: seq<seq<Cell>>, r: seq<seq<Cell>>)
    requires |g| == |r|
    requires forall i :: 0 <= i < |g| ==> |g[i]| == |r[i]|
    requires forall i, j :: 0 <= i < |g| && 0 <= j < |g[i]| ==> (g[i][j].isRevealed ==> r[i][j].isRevealed)
    ensures Hidden(r) <= Hidden(g)
    decreases |g|
  {
    if g != [] {
      var n := |g| - 1;
      HiddenRowsMonotone(g[..n], r[..n]);
      HiddenInMonotone(g[n], r[n]);
    }
  }

  /** Revealing cells never adds hidden ones. */
  lemma HiddenMonotone(g: Grid, r: Grid)
    requires IsGrid(g) && IsGrid(r) && OnlyRevealed(g, r)
    ensures Hidden(r) <= Hidden(g)
  {
    forall i, j | 0 <= i < |g| && 0 <= j < |g[i]| ensures g[i][j].isRevealed ==> r[i][j].isRevealed {
      assert MoreRevealed(g[i][j], r[i][j]);
    }
    HiddenRowsMonotone(g, r);
  }

  /** `GameState.checkWinCondition`: every mine flagged and every other cell revealed. */
  predicate Won(g: Grid)
    requires IsGrid(g)
  {
    forall i, j :: 0 <= i < |g| && 0 <= j < |g| ==>
      (g[i][j].isMine ==> g[i][j].isFlagged) && (!g[i][j].isMine ==> g[i][j].isRevealed)
  }
}
