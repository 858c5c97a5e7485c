/** model/Board.java as a class: the cells live in a two-dimensional array that the methods
    update in place, loop by loop, as the Java code does. Every method is proved to leave the
    board in the state the matching function of module Minefield describes, so what modules
    Placement and FloodFill prove about those functions holds of the array. */
module Boards {
  import opened Cells
  import opened Minefield
  import M = Minefield
  import Placement
  import FloodFill

  /** Two square grids with the same cells are equal. */
  lemma GridExt(a: Grid, b: Grid)
    requires IsGrid(a) && IsGrid(b) && |a| == |b|
    requires forall i, j :: 0 <= i < |a| && 0 <= j < |a| ==> a[i][j] == b[i][j]
    ensures a == b
  {
    forall i | 0 <= i < |a| ensures a[i] == b[i] {
      assert |a[i]| == |b[i]|;
    }
  }

  /** One round of the loops of `countAdjacentMines`. */
  lemma CountFromStep(g: Grid, x: int, y: int, i: int, j: int)
    requires IsGrid(g) && -1 <= i <= 1 && -1 <= j <= 1
    ensures Placement.CountFrom(g, x, y, i, j)
      == (if InRange(g, x + i, y + j) && g[x + i][y + j].isMine then 1 else 0)
        + (if j == 1 then Placement.CountFrom(g, x, y, i + 1, -1) else Placement.CountFrom(g, x, y, i, j + 1))
  {
  }

  /** `d` is `c` with at most its mine flag changed. */
  predicate OnlyMineChanged(c: Cell, d: Cell)
  {
    d.isRevealed == c.isRevealed && d.isFlagged == c.isFlagged && d.adjacentMines == c.adjacentMines
  }

  /** From `g`, the neighbour loops of `revealCell` run from offset (i, j) on lead to `t`;
      j == 2 stands for the end of row i. */
  ghost predicate Leads(g: Grid, x: int, y: int, i: int, j: int, t: Grid)
  {
    IsGrid(g) && -1 <= i <= 2 && -1 <= j <= 2 && (j == 2 ==> i <= 1) &&
    t == if j == 2 then Expand(g, x, y, i + 1, -1) else Expand(g, x, y, i, j)
  }

  /** A round of the neighbour loops of `revealCell` that recurses into (x + i, y + j): the
      recursive call is on a smaller measure, and afterwards the rest of the loops still
      lead to `t`. */
  lemma RevealStep(g: Grid, cur: Grid, x: int, y: int, i: int, j: int, t: Grid)
    requires IsGrid(g) && Hidden(cur) <= Hidden(g)
    requires -1 <= i <= 1 && -1 <= j <= 1 && Leads(cur, x, y, i, j, t)
    requires InRange(cur, x + i, y + j) && !cur[x + i][y + j].isRevealed
    ensures RevealRank(cur, x + i, y + j) <= Hidden(g)
    ensures Hidden(Reveal(cur, x + i, y + j)) <= Hidden(g)
    ensures Leads(Reveal(cur, x + i, y + j), x, y, i, j + 1, t)
  {
    ExpandUnfold(cur, x, y, i, j);
  }

  /** A round of the neighbour loops of `revealCell` that skips (x + i, y + j). */
  lemma SkipStep(cur: Grid, x: int, y: int, i: int, j: int, t: Grid)
    requires -1 <= i <= 1 && -1 <= j <= 1 && Leads(cur, x, y, i, j, t)
    requires !(InRange(cur, x + i, y + j) && !cur[x + i][y + j].isRevealed)
    ensures Leads(cur, x, y, i, j + 1, t)
  {
    ExpandUnfold(cur, x, y, i, j);
  }

  /** The end of row i is the start of row i + 1. */
  lemma RowEnd(g: Grid, x: int, y: int, i: int, t: Grid)
    requires -1 <= i <= 1 && Leads(g, x, y, i, 2, t)
    ensures Leads(g, x, y, i + 1, -1, t)
  {
  }

  class Board {
    const size: nat
    const numberOfMines: int
    const cells: array2<Cell>
    var minesPlaced: bool

    /** `cells` is `new Cell[size][size]`. */
    predicate Shaped()
    {
      cells.Length0 == size && cells.Length1 == size
    }

    /** The cells as a value: what `getCells` exposes. */
    ghost function Grid(): (g: Grid)
      requires Shaped()
      reads cells
      ensures IsGrid(g) && |g| == size
      ensures forall i, j :: 0 <= i < size && 0 <= j < size ==> g[i][j] == cells[i, j]
    {
      seq(size, i requires 0 <= i < cells.Length0 reads cells =>
        seq(size, j requires 0 <= j < cells.Length1 reads cells => cells[i, j]))
    }

    ghost function Model(): Minefield
      requires Shaped()
      reads this, cells
    {
      Minefield(size, numberOfMines, Grid(), minesPlaced)
    }

    ghost predicate Valid()
      reads this, cells
    {
      Shaped() && Model().Valid()
    }

    /** `new Board(size, numberOfMines)` */
    constructor (size: nat, numberOfMines: int)
      ensures Valid() && Model() == NewMinefield(size, numberOfMines)
      ensures fresh(cells)
    {
      this.size := size;
      this.numberOfMines := numberOfMines;
      cells := new Cell[size, size];
      minesPlaced := false;
      new;
      InitializeCells();
    }

    /** `new Board()`: the default 10 x 10 board with 20 mines. */
    constructor Default()
      ensures Valid() && Model() == DefaultMinefield()
      ensures fresh(cells)
    {
      size := DEFAULT_SIZE;
      numberOfMines := DEFAULT_MINES;
      cells := new Cell[DEFAULT_SIZE, DEFAULT_SIZE];
      minesPlaced := false;
      new;
      InitializeCells();
    }

    /** `initializeCells`: a new cell everywhere. */
    method InitializeCells()
      requires Shaped()
      modifies cells
      ensures Grid() == FreshGrid(size)
    {
      for i := 0 to size
        invariant forall p, q :: 0 <= p < i && 0 <= q < size ==> cells[p, q] == NewCell()
      {
        for j := 0 to size
          invariant forall p, q :: 0 <= p < i && 0 <= q < size ==> cells[p, q] == NewCell()
          invariant forall q :: 0 <= q < j ==> cells[i, q] == NewCell()
        {
          cells[i, j] := NewCell();
        }
      }
      GridExt(Grid(), FreshGrid(size));
    }

    /** `isValidPosition` */
    function IsValidPosition(x: int, y: int): (r: bool)
      requires Shaped()
      reads cells
      ensures r <==> InRange(Grid(), x, y)
    {
      0 <= x < size && 0 <= y < size
    }

    /** `countAdjacentMines(x, y)`: the mined in-range cells of the 3x3 block round (x, y),
        the centre included. */
    method CountAdjacentMines(x: int, y: int, ghost g: Grid) returns (count: int)
      requires Holds(g)
      ensures count == Placement.CountFrom(g, x, y, -1, -1)
      ensures InRange(g, x, y) ==> count == |MinedAround(g, x, y)| + (if g[x][y].isMine then 1 else 0)
    {
      count := 0;
      var i := -1;
      while i <= 1
        invariant -1 <= i <= 2
        invariant count + Placement.CountFrom(g, x, y, i, -1) == Placement.CountFrom(g, x, y, -1, -1)
      {
        var j := -1;
        while j <= 1
          invariant -1 <= j <= 2
          invariant count + (if j == 2 then Placement.CountFrom(g, x, y, i + 1, -1) else Placement.CountFrom(g, x, y, i, j))
            == Placement.CountFrom(g, x, y, -1, -1)
        {
          var newX, newY := x + i, y + j;
          CountFromStep(g, x, y, i, j);
          if IsValidPosition(newX, newY) && cells[newX, newY].isMine {
            count := count + 1;
          }
          j := j + 1;
        }
        i := i + 1;
      }
      if InRange(g, x, y) {
        Placement.CountAdjacent(g, x, y);
      }
    }

    /** `calculateAdjacentMines`: every non-mine cell gets the count of its mined neighbours. */
    method CalculateAdjacentMines()
      requires Shaped()
      modifies cells
      ensures Grid() == WithAdjacency(old(Grid()))
    {
      ghost var g0: Grid := Grid();
      for i := 0 to size
        invariant forall p, q :: 0 <= p < size && 0 <= q < size ==>
          cells[p, q] == if p < i then Counted(g0, p, q) else g0[p][q]
      {
        for j := 0 to size
          invariant forall p, q :: 0 <= p < size && 0 <= q < size ==>
            cells[p, q] == if p < i || (p == i && q < j) then Counted(g0, p, q) else g0[p][q]
        {
          if !cells[i, j].isMine {
            assert SameMines(Grid(), g0);
            SameMinesSameAround(Grid(), g0);
            var count := CountAdjacentMines(i, j, Grid());
            cells[i, j] := cells[i, j].SetAdjacentMines(count);
          }
        }
      }
      GridExt(Grid(), WithAdjacency(g0));
    }

    /** `placeMines(firstClickX, firstClickY)`, the random cells taken in turn from `draws`.
        The Java loop runs until enough distinct cells other than the first click have come up;
        `EnoughDraws` says the supplied draws contain that many. */
    method PlaceMines(firstClickX: int, firstClickY: int, draws: seq<Pos>)
      requires Valid()
      requires !minesPlaced ==> EnoughDraws(Model(), Pos(firstClickX, firstClickY), draws)
      modifies this, cells
      ensures Valid()
      ensures Model() == M.PlaceMines(old(Model()), Pos(firstClickX, firstClickY), draws)
    {
      if minesPlaced {
        return;
      }
      ghost var g0: Grid := Grid();
      forall p, q | 0 <= p < size && 0 <= q < size ensures !cells[p, q].isMine {
        assert Pos(p, q) !in MineSet(g0);
      }
      ghost var acc := DrawMines(firstClickX, firstClickY, draws);
      GridExt(Grid(), WithMines(g0, acc));
      CalculateAdjacentMines();
      minesPlaced := true;
    }

    /** The `while` loop of `placeMines`: mine each drawn cell that is neither the first click
        nor a mine already, until `numberOfMines` cells are mined. */
    method DrawMines(firstClickX: int, firstClickY: int, draws: seq<Pos>) returns (ghost acc: set<Pos>)
      requires Shaped()
      requires forall p, q :: 0 <= p < size && 0 <= q < size ==> !cells[p, q].isMine
      requires forall k :: 0 <= k < |draws| ==> 0 <= draws[k].x < size && 0 <= draws[k].y < size
      requires numberOfMines <= |Eligible(draws, Pos(firstClickX, firstClickY))|
      modifies cells
      ensures acc == TakeMines(draws, 0, Pos(firstClickX, firstClickY), numberOfMines, {}, 0)
      ensures forall p, q {:trigger cells[p, q]} :: 0 <= p < size && 0 <= q < size ==>
        cells[p, q].isMine == (Pos(p, q) in acc) && OnlyMineChanged(old(cells[p, q]), cells[p, q])
    {
      ghost var first := Pos(firstClickX, firstClickY);
      ghost var chosen := TakeMines(draws, 0, first, numberOfMines, {}, 0);
      DrawsSuffice(draws, first, numberOfMines);
      acc := {};
      var placed := 0;
      var k := 0;
      while placed < numberOfMines
        invariant 0 <= k <= |draws|
        invariant Finishes(draws, k, first, numberOfMines, acc, placed)
        invariant TakeMines(draws, k, first, numberOfMines, acc, placed) == chosen
        invariant forall p, q {:trigger cells[p, q]} :: 0 <= p < size && 0 <= q < size ==>
          cells[p, q].isMine == (Pos(p, q) in acc) && OnlyMineChanged(old(cells[p, q]), cells[p, q])
        decreases |draws| - k
      {
        var x, y := draws[k].x, draws[k].y;
        assert draws[k] == Pos(x, y) && cells[x, y].isMine == (Pos(x, y) in acc);
        if (x != firstClickX || y != firstClickY) && !cells[x, y].isMine {
          cells[x, y] := cells[x, y].SetMine(true);
          acc := acc + {Pos(x, y)};
          placed := placed + 1;
        }
        k := k + 1;
      }
    }

    /** `placeMinesFromPositions(positions)`: clear every mine, mine each listed cell, count. */
    method PlaceMinesFromPositions(positions: seq<Pos>)
      requires Valid()
      requires !minesPlaced ==> PositionsInRange(Grid(), positions)
      modifies this, cells
      ensures Valid()
      ensures Model() == M.PlaceMinesFromPositions(old(Model()), positions)
    {
      if minesPlaced {
        return;
      }
      ghost var g0: Grid := Grid();
      for i := 0 to size
        invariant forall p, q :: 0 <= p < size && 0 <= q < size ==>
          cells[p, q] == if p < i then g0[p][q].SetMine(false) else g0[p][q]
      {
        for j := 0 to size
          invariant forall p, q :: 0 <= p < size && 0 <= q < size ==>
            cells[p, q] == if p < i || (p == i && q < j) then g0[p][q].SetMine(false) else g0[p][q]
        {
          cells[i, j] := cells[i, j].SetMine(false);
        }
      }
      for k := 0 to |positions|
        invariant forall p, q {:trigger cells[p, q]} :: 0 <= p < size && 0 <= q < size ==>
          cells[p, q] == g0[p][q].SetMine(Pos(p, q) in positions[..k])
      {
        var pos := positions[k];
        assert positions[..k + 1] == positions[..k] + [pos];
        cells[pos.x, pos.y] := cells[pos.x, pos.y].SetMine(true);
      }
      assert positions[..|positions|] == positions;
      GridExt(Grid(), WithMines(g0, set p | p in positions));
      CalculateAdjacentMines();
      minesPlaced := true;
    }

    /** `getMinePositions`: the mine cells in row-major order, each once. */
    method GetMinePositions() returns (positions: seq<Pos>)
      requires Shaped()
      ensures positions == MinePositions(Grid())
      ensures forall p :: p in positions <==> p in MineSet(Grid())
      ensures StrictlySorted(positions) && |positions| == |MineSet(Grid())|
    {
      ghost var g: Grid := Grid();
      positions := [];
      for i := 0 to size
        invariant positions == MinesBefore(g, i)
      {
        for j := 0 to size
          invariant positions == MinesBefore(g, i) + RowMines(g, i, j)
        {
          if cells[i, j].isMine {
            positions := positions + [Pos(i, j)];
          }
        }
      }
      Placement.MinePositionsExact(g);
    }

    /** `toggleFlag(x, y)` */
    method ToggleFlag(x: int, y: int)
      requires Valid()
      modifies cells
      ensures Valid()
      ensures Grid() == M.ToggleFlag(old(Grid()), x, y)
    {
      ghost var m0 := Model();
      if 0 <= x < size && 0 <= y < size && !cells[x, y].isRevealed {
        ghost var g0: Grid := Grid();
        cells[x, y] := cells[x, y].SetFlagged(!cells[x, y].isFlagged);
        GridExt(Grid(), SetCell(g0, x, y, g0[x][y].SetFlagged(!g0[x][y].isFlagged)));
      }
      Placement.ToggleFlagValid(m0, x, y);
    }

    /** The array holds the cells of `g`. */
    ghost predicate Holds(g: Grid)
      reads cells
    {
      Shaped() && IsGrid(g) && |g| == size &&
      forall i, j {:trigger cells[i, j]} :: 0 <= i < size && 0 <= j < size ==> cells[i, j] == g[i][j]
    }

    /** The grid the array holds is `Grid()`. */
    lemma HoldsGrid(g: Grid)
      requires Holds(g)
      ensures Grid() == g
    {
      GridExt(Grid(), g);
    }

    /** `revealCell(x, y)`: nothing out of range or on a flagged cell; otherwise reveal the
        cell and, when it is an empty non-mine cell, visit its neighbours. The ghost `g` is
        the grid the array holds on entry. */
    method RevealCell(x: int, y: int, ghost g: Grid)
      requires Holds(g)
      modifies cells
      ensures Holds(Reveal(g, x, y))
      decreases RevealRank(g, x, y), 1
    {
      if 0 <= x < size && 0 <= y < size && !cells[x, y].isFlagged {
        cells[x, y] := cells[x, y].SetRevealed(true);
        ghost var g1: Grid := SetCell(g, x, y, g[x][y].SetRevealed(true));
        assert Holds(g1);
        RevealOneHides(g, x, y);
        if cells[x, y].adjacentMines == 0 && !cells[x, y].isMine {
          RevealNeighbours(x, y, g1);
        }
      }
    }

    /** The two nested loops of `revealCell`: call `revealCell` on every in-range hidden cell
        of the 3x3 block round (x, y). The outer loop runs here, the inner one in `RevealRow`. */
    method RevealNeighbours(x: int, y: int, ghost g: Grid)
      requires Holds(g)
      modifies cells
      ensures Holds(Expand(g, x, y, -1, -1))
      decreases Hidden(g), 4
    {
      ghost var cur: Grid := g;
      ghost var t := Expand(g, x, y, -1, -1);
      var i := -1;
      while i <= 1
        invariant -1 <= i <= 2
        invariant Holds(cur) && Hidden(cur) <= Hidden(g)
        invariant Leads(cur, x, y, i, -1, t)
      {
        cur := RevealRow(x, y, i, g, cur, t);
        i := i + 1;
      }
      assert cur == t;
    }

    /** The inner loop of the neighbour loops of `revealCell`, for row offset `i`; `g` gives
        the termination measure, `cur` is the grid on entry and `r` the grid on exit. */
    method RevealRow(x: int, y: int, i: int, ghost g: Grid, ghost cur: Grid, ghost t: Grid) returns (ghost r: Grid)
      requires Holds(cur) && IsGrid(g) && Hidden(cur) <= Hidden(g)
      requires -1 <= i <= 1 && Leads(cur, x, y, i, -1, t)
      modifies cells
      ensures Holds(r) && Hidden(r) <= Hidden(g)
      ensures Leads(r, x, y, i + 1, -1, t)
      decreases Hidden(g), 3
    {
      r := cur;
      var j := -1;
      while j <= 1
        invariant -1 <= j <= 2
        invariant Holds(r) && Hidden(r) <= Hidden(g)
        invariant Leads(r, x, y, i, j, t)
      {
        r := RevealNeighbour(x, y, i, j, g, r, t);
        j := j + 1;
      }
      RowEnd(r, x, y, i, t);
    }

    /** One round of the inner loop: `revealCell` on (x + i, y + j) when it is on the board
        and hidden. */
    method RevealNeighbour(x: int, y: int, i: int, j: int, ghost g: Grid, ghost cur: Grid, ghost t: Grid) returns (ghost r: Grid)
      requires Holds(cur) && IsGrid(g) && Hidden(cur) <= Hidden(g)
      requires -1 <= i <= 1 && -1 <= j <= 1 && Leads(cur, x, y, i, j, t)
      modifies cells
      ensures Holds(r) && Hidden(r) <= Hidden(g)
      ensures Leads(r, x, y, i, j + 1, t)
      decreases Hidden(g), 2
    {
      r := cur;
      var newX, newY := x + i, y + j;
      if 0 <= newX < size && 0 <= newY < size && !cells[newX, newY].isRevealed {
        RevealStep(g, cur, x, y, i, j, t);
        RevealCell(newX, newY, cur);
        r := Reveal(cur, newX, newY);
      } else {
        SkipStep(cur, x, y, i, j, t);
      }
    }
  }
}
