/** Facts about mine placement, the mine list and flag toggling (model/Board.java:37-149):
    what each placement leaves on the board, the order and exactness of `getMinePositions`,
    the host-to-joiner round trip through the mine list, and the flag toggle's involution. */
module Placement {
  import opened Cells
  import opened Minefield

  // ---------------------------------------------------------------------------------------
  // Counting mined neighbours the way `countAdjacentMines` does
  // ---------------------------------------------------------------------------------------

  /** In-range mined cells of the 3x3 block round (x, y), centre included, at offsets from
      (i, j) on in the order of the two nested loops of `countAdjacentMines`. */
  function NearFrom(g: Grid, x: int, y: int, i: int, j: int): set<Pos>
    requires IsGrid(g) && -1 <= i <= 2 && -1 <= j <= 1
    decreases 2 - i, 1 - j
  {
    if i == 2 then {}
    else
      var here := if InRange(g, x + i, y + j) && g[x + i][y + j].isMine then {Pos(x + i, y + j)} else {};
      here + if j == 1 then NearFrom(g, x, y, i + 1, -1) else NearFrom(g, x, y, i, j + 1)
  }

  /** What `count` holds in `countAdjacentMines` once the loops have passed offset (i, j):
      the number of mined in-range cells at the offsets still to come. */
  function CountFrom(g: Grid, x: int, y: int, i: int, j: int): nat
    requires IsGrid(g) && -1 <= i <= 2 && -1 <= j <= 1
    decreases 2 - i, 1 - j
  {
    if i == 2 then 0
    else
      var here := if InRange(g, x + i, y + j) && g[x + i][y + j].isMine then 1 else 0;
      here + if j == 1 then CountFrom(g, x, y, i + 1, -1) else CountFrom(g, x, y, i, j + 1)
  }

  /** The count is the size of the set of cells it counts. */
  lemma {:induction false} CountFromSize(g: Grid, x: int, y: int, i: int, j: int)
    requires IsGrid(g) && -1 <= i <= 2 && -1 <= j <= 1
    ensures CountFrom(g, x, y, i, j) == |NearFrom(g, x, y, i, j)|
    decreases 2 - i, 1 - j
  {
    if i < 2 {
      var i', j' := NextRow(i, j), NextCol(j);
      var a, b := x + i, y + j;
      CountFromSize(g, x, y, i', j');
      NearFromAhead(g, x, y, i, j, a, b);
      var here := CountUnfold(g, x, y, i, j, a, b);
      DisjointSize(here, NearFrom(g, x, y, i', j'), Pos(a, b));
    }
  }

  /** One round of the loops of `countAdjacentMines`: the cell at offset (i, j), when it is
      a mine on the board, joins the counted set and adds one to the count. */
  lemma CountUnfold(g: Grid, x: int, y: int, i: int, j: int, a: int, b: int) returns (here: set<Pos>)
    requires IsGrid(g) && -1 <= i < 2 && -1 <= j <= 1 && a == x + i && b == y + j
    ensures here <= {Pos(a, b)}
    ensures NearFrom(g, x, y, i, j) == here + NearFrom(g, x, y, NextRow(i, j), NextCol(j))
    ensures CountFrom(g, x, y, i, j) == |here| + CountFrom(g, x, y, NextRow(i, j), NextCol(j))
  {
    here := if InRange(g, a, b) && g[a][b].isMine then {Pos(a, b)} else {};
  }

  lemma DisjointSize(here: set<Pos>, rest: set<Pos>, p: Pos)
    requires here <= {p} && p !in rest
    ensures |here + rest| == |here| + |rest|
  {
    if p in here {
      assert here == {p};
    } else {
      assert here == {};
    }
  }

  /** At most one cell is counted per offset still to come. */
  lemma {:induction false} CountFromBound(g: Grid, x: int, y: int, i: int, j: int)
    requires IsGrid(g) && -1 <= i < 2 && -1 <= j <= 1
    ensures CountFrom(g, x, y, i, j) <= 3 * (2 - i) - (j + 1)
    decreases 2 - i, 1 - j
  {
    if j < 1 {
      CountFromBound(g, x, y, i, j + 1);
    } else if i < 1 {
      CountFromBound(g, x, y, i + 1, -1);
    }
  }

  /** The offsets still to come never include the current one. */
  lemma NearFromAhead(g: Grid, x: int, y: int, i: int, j: int, a: int, b: int)
    requires IsGrid(g) && -1 <= i < 2 && -1 <= j <= 1 && a == x + i && b == y + j
    ensures Pos(a, b) !in NearFrom(g, x, y, NextRow(i, j), NextCol(j))
  {
    NearFromBounds(g, x, y, NextRow(i, j), NextCol(j));
  }

  lemma {:induction false} NearFromBounds(g: Grid, x: int, y: int, i: int, j: int)
    requires IsGrid(g) && -1 <= i <= 2 && -1 <= j <= 1
    ensures forall p {:trigger p in NearFrom(g, x, y, i, j)} :: p in NearFrom(g, x, y, i, j) ==>
      p.x - x > i || (p.x - x == i && p.y - y >= j)
    decreases 2 - i, 1 - j
  {
    if i < 2 {
      if j == 1 {
        NearFromBounds(g, x, y, i + 1, -1);
      } else {
        NearFromBounds(g, x, y, i, j + 1);
      }
    }
  }

  /** The same set, read off the grid directly. */
  lemma {:induction false} NearFromIsBlock(g: Grid, x: int, y: int, i: int, j: int)
    requires IsGrid(g) && -1 <= i <= 2 && -1 <= j <= 1
    ensures forall p {:trigger p in NearFrom(g, x, y, i, j)} :: p in NearFrom(g, x, y, i, j) <==>
      InRange(g, p.x, p.y) && Near(x, y, p.x, p.y) && g[p.x][p.y].isMine && (p.x - x > i || (p.x - x == i && p.y - y >= j))
    decreases 2 - i, 1 - j
  {
    if i < 2 {
      var i', j' := if j == 1 then i + 1 else i, if j == 1 then -1 else j + 1;
      NearFromIsBlock(g, x, y, i', j');
      var here := if InRange(g, x + i, y + j) && g[x + i][y + j].isMine then {Pos(x + i, y + j)} else {};
      assert NearFrom(g, x, y, i, j) == here + NearFrom(g, x, y, i', j');
      forall p: Pos {:trigger Near(x, y, p.x, p.y)} ensures (p.x - x > i || (p.x - x == i && p.y - y >= j)) && Near(x, y, p.x, p.y) <==>
        (p == Pos(x + i, y + j) || ((p.x - x > i' || (p.x - x == i' && p.y - y >= j')) && Near(x, y, p.x, p.y)))
      {
      }
    }
  }

  /** `countAdjacentMines(x, y)` counts the mined neighbours of (x, y), plus one when (x, y)
      is itself a mine (its loops include the centre offset). */
  lemma CountAdjacent(g: Grid, x: int, y: int)
    requires IsGrid(g) && InRange(g, x, y)
    ensures CountFrom(g, x, y, -1, -1) == |MinedAround(g, x, y)| + (if g[x][y].isMine then 1 else 0)
  {
    var centre: set<Pos> := if g[x][y].isMine then {Pos(x, y)} else {};
    CountFromSize(g, x, y, -1, -1);
    BlockSplits(g, x, y, centre);
    CentreApart(g, x, y, centre);
  }

  /** The centre is not among its own neighbours. */
  lemma CentreApart(g: Grid, x: int, y: int, centre: set<Pos>)
    requires IsGrid(g) && centre <= {Pos(x, y)}
    ensures |MinedAround(g, x, y) + centre| == |MinedAround(g, x, y)| + |centre|
  {
    assert Pos(x, y) !in MinedAround(g, x, y);
    assert MinedAround(g, x, y) * centre == {};
  }

  lemma BlockSplits(g: Grid, x: int, y: int, centre: set<Pos>)
    requires IsGrid(g) && InRange(g, x, y) && centre == if g[x][y].isMine then {Pos(x, y)} else {}
    ensures NearFrom(g, x, y, -1, -1) == MinedAround(g, x, y) + centre
  {
    NearFromIsBlock(g, x, y, -1, -1);
    var all := NearFrom(g, x, y, -1, -1);
    var around := MinedAround(g, x, y);
    forall u | u in all ensures u in around + centre {
      if u != Pos(x, y) {
        assert u == Pos(u.x, u.y);
      }
    }
    forall u | u in around + centre ensures u in all {
      assert InRange(g, u.x, u.y) && Near(x, y, u.x, u.y) && g[u.x][u.y].isMine;
    }
  }

  /** A cell has at most eight mined neighbours. */
  lemma AdjacencyAtMostEight(g: Grid, x: int, y: int)
    requires IsGrid(g) && InRange(g, x, y)
    ensures |MinedAround(g, x, y)| <= 8
    ensures AdjacencyCorrect(g) && !g[x][y].isMine ==> 0 <= g[x][y].adjacentMines <= 8
  {
    CountAdjacent(g, x, y);
    if !g[x][y].isMine {
      assert g[x][y].isMine == false;
      NearFromIsBlock(g, x, y, -1, -1);
      assert Pos(x, y) !in NearFrom(g, x, y, -1, -1);
      NearFromHasRoom(g, x, y);
    }
  }

  /** Without a mine in the centre the loops count at most the eight other offsets. */
  lemma NearFromHasRoom(g: Grid, x: int, y: int)
    requires IsGrid(g) && InRange(g, x, y) && !g[x][y].isMine
    ensures CountFrom(g, x, y, -1, -1) <= 8
  {
    // The centre offset contributes nothing; the other eight contribute at most one each.
    CountFromBound(g, x, y, 0, 1);
    assert CountFrom(g, x, y, 0, 0) == CountFrom(g, x, y, 0, 1);
    assert CountFrom(g, x, y, -1, -1) == CountFrom(g, x, y, -1, 0) + (if InRange(g, x - 1, y - 1) && g[x - 1][y - 1].isMine then 1 else 0);
  }

  // ---------------------------------------------------------------------------------------
  // Placement
  // ---------------------------------------------------------------------------------------

  /** The mines of `WithMines(g, s)` are the in-range members of `s`. */
  lemma WithMinesMineSet(g: Grid, s: set<Pos>)
    requires IsGrid(g)
    ensures forall p {:trigger p in MineSet(WithMines(g, s))} :: p in MineSet(WithMines(g, s)) <==> p in s && InRange(g, p.x, p.y)
  {
    var r := WithMines(g, s);
    forall p {:trigger p in s} | p in s && InRange(g, p.x, p.y) ensures p in MineSet(r) {
      assert r[p.x][p.y].isMine;
    }
  }

  /** The mines of a grid built from its own mine set are unchanged whatever the other cells hold. */
  lemma WithMinesSameInRange(g: Grid, s: set<Pos>, t: set<Pos>)
    requires IsGrid(g)
    requires forall p: Pos {:trigger p in s} {:trigger p in t} :: InRange(g, p.x, p.y) ==> (p in s <==> p in t)
    ensures WithMines(g, s) == WithMines(g, t)
  {
    var a, b := WithMines(g, s), WithMines(g, t);
    forall i | 0 <= i < |g| ensures a[i] == b[i] {
      forall j | 0 <= j < |g| ensures a[i][j] == b[i][j] {
        assert InRange(g, i, j);
        assert (Pos(i, j) in s) == (Pos(i, j) in t);
      }
    }
  }

  /** Placement keeps every cell's revealed and flagged state and gives a placed, valid board. */
  lemma PlacementKeepsCells(m: Minefield, s: set<Pos>)
    requires m.Valid()
    ensures var g := WithAdjacency(WithMines(m.grid, s));
      m.(grid := g, minesPlaced := true).Valid()
      && forall i, j :: InRange(m.grid, i, j) ==>
        g[i][j].isRevealed == m.grid[i][j].isRevealed && g[i][j].isFlagged == m.grid[i][j].isFlagged
  {
  }

  /** Mining the in-range cells of `s` and counting gives a board whose mines are `s`. */
  lemma PlacedMineSet(g: Grid, s: set<Pos>)
    requires IsGrid(g) && forall p {:trigger p in s} :: p in s ==> InRange(g, p.x, p.y)
    ensures MineSet(WithAdjacency(WithMines(g, s))) == s
  {
    var w := WithMines(g, s);
    WithMinesMineSet(g, s);
    assert MineSet(w) == s;
    assert MineSet(WithAdjacency(w)) == MineSet(w) by {
      SameMinesSameAround(w, WithAdjacency(w));
    }
  }

  /** The cells the `placeMines` loop takes: as many as asked for (none for a negative
      count), all drawn, none the first click. */
  lemma TakenMines(draws: seq<Pos>, first: Pos, need: int)
    requires need <= |Eligible(draws, first)|
    ensures var mines := TakeMines(draws, 0, first, need, {}, 0);
      |mines| == (if need < 0 then 0 else need) && first !in mines && mines <= Eligible(draws, first)
  {
    if need >= 0 {
      assert draws[0..] == draws;
      TakeMinesOutcome(draws, 0, first, need, {});
    }
  }

  /** Every drawn cell is on the board. */
  lemma EligibleInRange(g: Grid, draws: seq<Pos>, first: Pos)
    requires DrawsInRange(g, draws)
    ensures forall p {:trigger p in Eligible(draws, first)} :: p in Eligible(draws, first) ==> InRange(g, p.x, p.y)
  {
    forall p | p in Eligible(draws, first) ensures InRange(g, p.x, p.y) {
      var k :| 0 <= k < |draws| && draws[k] == p;
    }
  }

  /** `placeMines` on an empty board mines exactly `numberOfMines` drawn cells (none when the
      count is negative, since the loop never runs), never the first click, and keeps everything
      else of every cell. */
  lemma PlaceMinesOutcome(m: Minefield, first: Pos, draws: seq<Pos>)
    requires m.Valid() && !m.minesPlaced && EnoughDraws(m, first, draws)
    ensures var r := PlaceMines(m, first, draws);
      r.Valid() && r.minesPlaced && r.size == m.size && r.numberOfMines == m.numberOfMines
      && |MineSet(r.grid)| == (if m.numberOfMines < 0 then 0 else m.numberOfMines)
      && first !in MineSet(r.grid)
      && MineSet(r.grid) <= Eligible(draws, first)
      && forall i, j :: InRange(m.grid, i, j) ==>
        r.grid[i][j].isRevealed == m.grid[i][j].isRevealed && r.grid[i][j].isFlagged == m.grid[i][j].isFlagged
  {
    var mines := TakeMines(draws, 0, first, m.numberOfMines, {}, 0);
    TakenMines(draws, first, m.numberOfMines);
    EligibleInRange(m.grid, draws, first);
    PlacedMineSet(m.grid, mines);
    PlacementKeepsCells(m, mines);
  }

  /** On a placed board `placeMines` does nothing. */
  lemma PlaceMinesOnce(m: Minefield, first: Pos, draws: seq<Pos>, first': Pos, draws': seq<Pos>)
    requires m.Valid()
    ensures PlaceMines(m, first, draws).Valid()
    ensures PlaceMines(PlaceMines(m, first, draws), first', draws') == PlaceMines(m, first, draws)
  {
    PlacementKeepsCells(m, TakeMines(draws, 0, first, m.numberOfMines, {}, 0));
  }

  /** `placeMinesFromPositions` on an empty board mines exactly the listed cells. */
  lemma PlaceFromPositionsOutcome(m: Minefield, positions: seq<Pos>)
    requires m.Valid() && !m.minesPlaced && PositionsInRange(m.grid, positions)
    ensures var r := PlaceMinesFromPositions(m, positions);
      r.Valid() && r.minesPlaced && r.size == m.size && r.numberOfMines == m.numberOfMines
      && (forall p {:trigger p in MineSet(r.grid)} :: p in MineSet(r.grid) <==> p in positions)
      && forall i, j :: InRange(m.grid, i, j) ==>
        r.grid[i][j].isRevealed == m.grid[i][j].isRevealed && r.grid[i][j].isFlagged == m.grid[i][j].isFlagged
  {
    var s := set p | p in positions;
    var g := WithMines(m.grid, s);
    WithMinesMineSet(m.grid, s);
    forall p {:trigger p in positions} | p in positions ensures InRange(m.grid, p.x, p.y) {
      var k :| 0 <= k < |positions| && positions[k] == p;
    }
    SameMinesSameAround(g, WithAdjacency(g));
    PlacementKeepsCells(m, s);
  }

  /** Listing a position twice changes nothing. */
  lemma PlaceFromPositionsDuplicate(m: Minefield, positions: seq<Pos>, k: nat)
    requires m.Valid() && k < |positions|
    ensures PlaceMinesFromPositions(m, positions + [positions[k]]) == PlaceMinesFromPositions(m, positions)
  {
    assert (set p | p in positions + [positions[k]]) == (set p | p in positions);
  }

  /** On a placed board `placeMinesFromPositions` does nothing. */
  lemma PlaceFromPositionsOnce(m: Minefield, positions: seq<Pos>, positions': seq<Pos>)
    requires m.Valid()
    ensures PlaceMinesFromPositions(m, positions).Valid()
    ensures PlaceMinesFromPositions(PlaceMinesFromPositions(m, positions), positions') == PlaceMinesFromPositions(m, positions)
  {
    PlacementKeepsCells(m, set p | p in positions);
  }

  // ---------------------------------------------------------------------------------------
  // The mine list
  // ---------------------------------------------------------------------------------------

  lemma SortedAppend(a: seq<Pos>, b: seq<Pos>)
    requires StrictlySorted(a) && StrictlySorted(b)
    requires forall p, q :: p in a && q in b ==> Before(p, q)
    ensures StrictlySorted(a + b)
  {
    forall k, l | 0 <= k < l < |a + b| ensures Before((a + b)[k], (a + b)[l]) {
      if k < |a| && |a| <= l {
        assert (a + b)[k] == a[k] && a[k] in a;
        assert (a + b)[l] == b[l - |a|] && b[l - |a|] in b;
      }
    }
  }

  lemma {:induction false} RowMinesFacts(g: Grid, i: int, j: nat)
    requires IsGrid(g) && 0 <= i < |g| && j <= |g|
    ensures StrictlySorted(RowMines(g, i, j))
    ensures forall p {:trigger p in RowMines(g, i, j)} :: p in RowMines(g, i, j) <==> p.x == i && 0 <= p.y < j && g[p.x][p.y].isMine
  {
    if j > 0 {
      RowMinesFacts(g, i, j - 1);
      SortedAppend(RowMines(g, i, j - 1), if g[i][j - 1].isMine then [Pos(i, j - 1)] else []);
    }
  }

  lemma {:induction false} MinesBeforeFacts(g: Grid, i: nat)
    requires IsGrid(g) && i <= |g|
    ensures StrictlySorted(MinesBefore(g, i))
    ensures forall p {:trigger p in MinesBefore(g, i)} :: p in MinesBefore(g, i) <==> 0 <= p.x < i && 0 <= p.y < |g| && g[p.x][p.y].isMine
  {
    if i > 0 {
      MinesBeforeFacts(g, i - 1);
      RowMinesFacts(g, i - 1, |g|);
      assert MinesBefore(g, i) == MinesBefore(g, i - 1) + RowMines(g, i - 1, |g|);
      RowsAppend(g, i, MinesBefore(g, i - 1), RowMines(g, i - 1, |g|));
    }
  }

  /** The mines of the rows below `i - 1` followed by those of row `i - 1`. */
  lemma RowsAppend(g: Grid, i: nat, s: seq<Pos>, t: seq<Pos>)
    requires IsGrid(g) && 0 < i <= |g| && StrictlySorted(s) && StrictlySorted(t)
    requires forall p {:trigger p in s} :: p in s <==> 0 <= p.x < i - 1 && 0 <= p.y < |g| && g[p.x][p.y].isMine
    requires forall p {:trigger p in t} :: p in t <==> p.x == i - 1 && 0 <= p.y < |g| && g[p.x][p.y].isMine
    ensures forall p {:trigger p in s + t} :: p in s + t <==> 0 <= p.x < i && 0 <= p.y < |g| && g[p.x][p.y].isMine
    ensures StrictlySorted(s + t)
  {
    SortedAppend(s, t);
  }

  lemma {:induction false} SortedDistinct(s: seq<Pos>)
    requires StrictlySorted(s)
    ensures |set p | p in s| == |s|
    decreases |s|
  {
    if |s| > 0 {
      SortedDistinct(s[1..]);
      assert (set p | p in s) == {s[0]} + (set p | p in s[1..]);
      assert s[0] !in (set p | p in s[1..]);
    }
  }

  /** `getMinePositions` lists every mine exactly once, and nothing else, in row-major order. */
  lemma MinePositionsExact(g: Grid)
    requires IsGrid(g)
    ensures forall p :: p in MinePositions(g) <==> p in MineSet(g)
    ensures StrictlySorted(MinePositions(g))
    ensures |MinePositions(g)| == |MineSet(g)|
  {
    MinesBeforeFacts(g, |g|);
    var s := MinePositions(g);
    assert (set p | p in s) == MineSet(g);
    SortedDistinct(s);
  }

  /** The joiner's round trip: a board given the host's mine list, on the same empty board the
      host started from, is the host's board after its own `placeMines`. */
  lemma MineListRoundTrip(m: Minefield, first: Pos, draws: seq<Pos>)
    requires m.Valid() && !m.minesPlaced
    ensures PlaceMinesFromPositions(m, MinePositions(PlaceMines(m, first, draws).grid)) == PlaceMines(m, first, draws)
  {
    var mines := TakeMines(draws, 0, first, m.numberOfMines, {}, 0);
    var g := WithMines(m.grid, mines);
    var h := WithAdjacency(g);
    MinePositionsExact(h);
    SameMinesSameAround(g, h);
    WithMinesMineSet(m.grid, mines);
    var listed := set p | p in MinePositions(h);
    WithMinesSameInRange(m.grid, listed, mines);
  }

  /** Passing a placed board's mine list to a fresh board of the same size reproduces its mines. */
  lemma MineListRebuilds(m: Minefield, empty: Minefield)
    requires m.Valid() && empty.Valid() && !empty.minesPlaced && empty.size == m.size
    ensures var r := PlaceMinesFromPositions(empty, MinePositions(m.grid));
      MineSet(r.grid) == MineSet(m.grid)
      && forall i, j :: InRange(m.grid, i, j) && !m.grid[i][j].isMine ==> r.grid[i][j].adjacentMines == |MinedAround(m.grid, i, j)|
  {
    MinePositionsExact(m.grid);
    var s := set p | p in MinePositions(m.grid);
    assert s == MineSet(m.grid);
    MineSetInRange(m.grid);
    PlacedMineSet(empty.grid, s);
    var r := WithAdjacency(WithMines(empty.grid, s));
    MineSetSameAround(r, m.grid);
  }

  lemma MineSetInRange(g: Grid)
    requires IsGrid(g)
    ensures forall p {:trigger p in MineSet(g)} :: p in MineSet(g) ==> InRange(g, p.x, p.y) && g[p.x][p.y].isMine
  {
  }

  /** Two boards of one size with the same mines have the same mined neighbours everywhere. */
  lemma MineSetSameAround(g: Grid, h: Grid)
    requires IsGrid(g) && IsGrid(h) && |g| == |h| && MineSet(g) == MineSet(h)
    ensures SameMines(g, h)
    ensures forall x, y :: MinedAround(g, x, y) == MinedAround(h, x, y)
  {
    forall i, j | 0 <= i < |g| && 0 <= j < |g| ensures g[i][j].isMine == h[i][j].isMine {
      assert (Pos(i, j) in MineSet(g)) == g[i][j].isMine;
      assert (Pos(i, j) in MineSet(h)) == h[i][j].isMine;
    }
    SameMinesSameAround(g, h);
  }

  // ---------------------------------------------------------------------------------------
  // Flags
  // ---------------------------------------------------------------------------------------

  /** `toggleFlag` flips the flag of an in-range hidden cell and changes nothing else. */
  lemma ToggleFlagEffect(g: Grid, x: int, y: int)
    requires IsGrid(g)
    ensures var r := ToggleFlag(g, x, y);
      IsGrid(r) && |r| == |g|
      && (forall i, j :: InRange(g, i, j) && !(i == x && j == y) ==> r[i][j] == g[i][j])
      && (InRange(g, x, y) && !g[x][y].isRevealed ==> r[x][y] == g[x][y].SetFlagged(!g[x][y].isFlagged))
      && (!InRange(g, x, y) || g[x][y].isRevealed ==> r == g)
  {
  }

  /** Toggling the same cell twice gives the board back. */
  lemma ToggleFlagTwice(g: Grid, x: int, y: int)
    requires IsGrid(g)
    ensures ToggleFlag(ToggleFlag(g, x, y), x, y) == g
  {
    if InRange(g, x, y) && !g[x][y].isRevealed {
      var c := g[x][y];
      var c' := c.SetFlagged(!c.isFlagged);
      var r := ToggleFlag(g, x, y);
      assert r == g[x := g[x][y := c']];
      assert r[x][y] == c' && !c'.isRevealed;
      assert c'.SetFlagged(!c'.isFlagged) == c;
      assert ToggleFlag(r, x, y) == r[x := r[x][y := c]];
      assert r[x][y := c] == g[x][y := c'][y := c] == g[x];
    }
  }

  /** Toggling a flag keeps the board invariant. */
  lemma ToggleFlagValid(m: Minefield, x: int, y: int)
    requires m.Valid()
    ensures m.(grid := ToggleFlag(m.grid, x, y)).Valid()
  {
    var r := ToggleFlag(m.grid, x, y);
    assert SameMines(m.grid, r);
    SameMinesSameAround(m.grid, r);
  }

  /** Revealing cells keeps the board invariant. */
  lemma RevealedValid(m: Minefield, g: Grid)
    requires m.Valid() && IsGrid(g) && OnlyRevealed(m.grid, g)
    ensures m.(grid := g).Valid()
  {
    assert SameMines(m.grid, g);
    SameMinesSameAround(m.grid, g);
  }

  /** Revealing cells moves no mine. */
  lemma RevealedSameMines(g: Grid, h: Grid)
    requires IsGrid(g) && IsGrid(h) && OnlyRevealed(g, h)
    ensures MineSet(h) == MineSet(g)
  {
    assert SameMines(g, h);
    SameMinesSameAround(g, h);
  }

  lemma {:induction false} RowMinesSameMines(g: Grid, h: Grid, i: int, j: nat)
    requires IsGrid(g) && IsGrid(h) && SameMines(g, h) && 0 <= i < |g| && j <= |g|
    ensures RowMines(g, i, j) == RowMines(h, i, j)
    decreases j
  {
    if j > 0 {
      RowMinesSameMines(g, h, i, j - 1);
    }
  }

  lemma {:induction false} MinesBeforeSameMines(g: Grid, h: Grid, i: nat)
    requires IsGrid(g) && IsGrid(h) && SameMines(g, h) && i <= |g|
    ensures MinesBefore(g, i) == MinesBefore(h, i)
    decreases i
  {
    if i > 0 {
      MinesBeforeSameMines(g, h, i - 1);
      RowMinesSameMines(g, h, i - 1, |g|);
    }
  }

  /** Revealing cells leaves `getMinePositions` as it was. */
  lemma MineListSameMines(g: Grid, h: Grid)
    requires IsGrid(g) && IsGrid(h) && OnlyRevealed(g, h)
    ensures MinePositions(h) == MinePositions(g)
  {
    assert SameMines(g, h);
    MinesBeforeSameMines(g, h, |g|);
  }
}
