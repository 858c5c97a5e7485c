/** The game logic of ui/pages/GamePage.java as values. The page runs its own flood fill,
    which differs from the board's: it stops once the game is over, ends the game on a mine,
    does not check its target for a flag, and tests the win condition after every cell it
    reveals. What the page sends to its opponent is appended to an outbox. The class
    GamePages.GamePage runs the same code in place and is proved equal to these functions. */
module Pages {
  import opened Cells
  import opened Wrappers
  import opened Minefield
  import opened Messages

  /** What the page's reveal code reads and writes: the cells, `isGameOver` and the
      messages sent so far. */
  datatype Play = Play(grid: Grid, over: bool, outbox: seq<GameMessage>)

  /** `new GameMessage(GAME_OVER, 0, 0, won)`, as `sendGameOver` builds it. */
  function GameOverMessage(won: bool): (m: GameMessage)
    ensures m.msgType == GAME_OVER && m.x == 0 && m.y == 0 && m.isFlag == won
  {
    WithMove(GAME_OVER, 0, 0, won)
  }

  /** `sendGameOver(won)`: one message in multiplayer mode, none otherwise. */
  function GameOverSent(multiplayer: bool, won: bool): seq<GameMessage>
  {
    if multiplayer then [GameOverMessage(won)] else []
  }

  /** Every mine of `g` is revealed. */
  predicate MinesShown(g: Grid)
    requires IsGrid(g)
  {
    forall i, j :: 0 <= i < |g| && 0 <= j < |g| && g[i][j].isMine ==> g[i][j].isRevealed
  }

  /** `revealAllMines`: the mines turn revealed and nothing else changes. */
  function RevealMines(g: Grid): (r: Grid)
    requires IsGrid(g)
    ensures IsGrid(r) && OnlyRevealed(g, r) && Hidden(r) <= Hidden(g) && MinesShown(r)
    ensures forall i, j :: 0 <= i < |g| && 0 <= j < |g| ==>
      r[i][j].isRevealed == (g[i][j].isRevealed || g[i][j].isMine)
  {
    var r := seq(|g|, i requires 0 <= i < |g| =>
      seq(|g|, j requires 0 <= j < |g| => if g[i][j].isMine then g[i][j].SetRevealed(true) else g[i][j]));
    HiddenMonotone(g, r);
    r
  }

  /** `gameOver(won)`: nothing once the game is over; otherwise set it over, reveal the mines
      and, in multiplayer mode, send one GAME_OVER message. */
  function EndGame(p: Play, multiplayer: bool, won: bool): (r: Play)
    requires IsGrid(p.grid)
    ensures IsGrid(r.grid) && |r.grid| == |p.grid| && Hidden(r.grid) <= Hidden(p.grid)
  {
    if p.over then p else Play(RevealMines(p.grid), true, p.outbox + GameOverSent(multiplayer, won))
  }

  /** The page's `checkWinCondition`: a won board ends the game as won. */
  function CheckWin(p: Play, multiplayer: bool): (r: Play)
    requires IsGrid(p.grid)
    ensures IsGrid(r.grid) && |r.grid| == |p.grid| && Hidden(r.grid) <= Hidden(p.grid)
  {
    if Won(p.grid) then EndGame(p, multiplayer, true) else p
  }

  /** The page's `revealCell(x, y)`. The Java indexes the array without a range check, so the
      target must be in range. */
  function PageReveal(p: Play, multiplayer: bool, x: int, y: int): (r: Play)
    requires IsGrid(p.grid) && InRange(p.grid, x, y)
    ensures IsGrid(r.grid) && |r.grid| == |p.grid| && Hidden(r.grid) <= Hidden(p.grid)
    decreases RevealRank(p.grid, x, y), 1, 0, 0
  {
    if p.over then p
    else if p.grid[x][y].isMine then EndGame(p, multiplayer, false)
    else
      var p1 := p.(grid := SetCell(p.grid, x, y, p.grid[x][y].SetRevealed(true)));
      RevealOneHides(p.grid, x, y);
      var p2 := if p.grid[x][y].adjacentMines == 0 then PageExpand(p1, multiplayer, x, y, -1, -1) else p1;
      CheckWin(p2, multiplayer)
  }

  /** One round of the loops of `revealAdjacentCells`: reveal (a, b) when it is in range,
      hidden and not flagged. */
  function PageVisit(p: Play, multiplayer: bool, a: int, b: int): (r: Play)
    requires IsGrid(p.grid)
    ensures IsGrid(r.grid) && |r.grid| == |p.grid| && Hidden(r.grid) <= Hidden(p.grid)
    decreases Hidden(p.grid), 1, 1, 0
  {
    if InRange(p.grid, a, b) && !p.grid[a][b].isRevealed && !p.grid[a][b].isFlagged then
      PageReveal(p, multiplayer, a, b)
    else p
  }

  /** `revealAdjacentCells(x, y)`, from offset (i, j) on. */
  function PageExpand(p: Play, multiplayer: bool, x: int, y: int, i: int, j: int): (r: Play)
    requires IsGrid(p.grid) && -1 <= i <= 2 && -1 <= j <= 1
    ensures IsGrid(r.grid) && |r.grid| == |p.grid| && Hidden(r.grid) <= Hidden(p.grid)
    decreases Hidden(p.grid), 2, 2 - i, 1 - j
  {
    if i == 2 then p
    else
      var i', j' := NextRow(i, j), NextCol(j);
      PageExpand(PageVisit(p, multiplayer, x + i, y + j), multiplayer, x, y, i', j')
  }

  // ---------------------------------------------------------------------------------------
  // What the page's reveal does to the cells
  // ---------------------------------------------------------------------------------------

  /** A flagged cell that turned revealed between `g` and `r` is a mine (shown at the end of
      the game) or the target (x, y), which the page does not check for a flag. */
  predicate FlagsKept(g: Grid, r: Grid, x: int, y: int)
    requires IsGrid(g) && IsGrid(r) && |r| == |g|
  {
    forall i, j :: 0 <= i < |g| && 0 <= j < |g| && r[i][j].isRevealed && !g[i][j].isRevealed && g[i][j].isFlagged
      ==> g[i][j].isMine || (i == x && j == y)
  }

  lemma FlagsKeptTrans(a: Grid, b: Grid, c: Grid, x: int, y: int)
    requires IsGrid(a) && IsGrid(b) && IsGrid(c) && OnlyRevealed(a, b) && OnlyRevealed(b, c)
    requires FlagsKept(a, b, x, y) && FlagsKept(b, c, x, y)
    ensures FlagsKept(a, c, x, y)
  {
    forall i, j | 0 <= i < |a| && 0 <= j < |a| && c[i][j].isRevealed && !a[i][j].isRevealed && a[i][j].isFlagged
      ensures a[i][j].isMine || (i == x && j == y)
    {
      assert MoreRevealed(a[i][j], b[i][j]);
    }
  }

  /** An exception for a target that was not flagged is no exception. */
  lemma FlagsKeptMove(g: Grid, r: Grid, a: int, b: int, x: int, y: int)
    requires IsGrid(g) && IsGrid(r) && |r| == |g| && FlagsKept(g, r, a, b)
    requires InRange(g, a, b) && !g[a][b].isFlagged
    ensures FlagsKept(g, r, x, y)
  {
  }

  /** Both facts at once, composed along a chain of grids. */
  predicate RevealsOnly(g: Grid, r: Grid, x: int, y: int)
    requires IsGrid(g) && IsGrid(r)
  {
    OnlyRevealed(g, r) && FlagsKept(g, r, x, y)
  }

  lemma RevealsOnlyTrans(a: Grid, b: Grid, c: Grid, x: int, y: int)
    requires IsGrid(a) && IsGrid(b) && IsGrid(c) && RevealsOnly(a, b, x, y) && RevealsOnly(b, c, x, y)
    ensures RevealsOnly(a, c, x, y)
  {
    OnlyRevealedTrans(a, b, c);
    FlagsKeptTrans(a, b, c, x, y);
  }

  lemma EndGameOnlyReveals(p: Play, multiplayer: bool, won: bool, x: int, y: int)
    requires IsGrid(p.grid)
    ensures RevealsOnly(p.grid, EndGame(p, multiplayer, won).grid, x, y)
  {
  }

  lemma CheckWinOnlyReveals(p: Play, multiplayer: bool, x: int, y: int)
    requires IsGrid(p.grid)
    ensures RevealsOnly(p.grid, CheckWin(p, multiplayer).grid, x, y)
  {
    EndGameOnlyReveals(p, multiplayer, true, x, y);
  }

  lemma RevealHereOnlyReveals(g: Grid, x: int, y: int)
    requires IsGrid(g) && InRange(g, x, y)
    ensures RevealsOnly(g, SetCell(g, x, y, g[x][y].SetRevealed(true)), x, y)
  {
  }

  /** The page's reveal changes nothing but `isRevealed`, and reveals no flagged cell but
      mines at the end of the game and its own target. */
  lemma {:induction false} PageRevealOnlyReveals(p: Play, multiplayer: bool, x: int, y: int)
    requires IsGrid(p.grid) && InRange(p.grid, x, y)
    ensures RevealsOnly(p.grid, PageReveal(p, multiplayer, x, y).grid, x, y)
    decreases RevealRank(p.grid, x, y), 1, 0, 0
  {
    if p.over {
      assert OnlyRevealed(p.grid, p.grid);
    } else if p.grid[x][y].isMine {
      EndGameOnlyReveals(p, multiplayer, false, x, y);
    } else {
      var p1 := p.(grid := SetCell(p.grid, x, y, p.grid[x][y].SetRevealed(true)));
      RevealOneHides(p.grid, x, y);
      RevealHereOnlyReveals(p.grid, x, y);
      var p2 := if p.grid[x][y].adjacentMines == 0 then PageExpand(p1, multiplayer, x, y, -1, -1) else p1;
      if p.grid[x][y].adjacentMines == 0 {
        PageExpandOnlyReveals(p1, multiplayer, x, y, -1, -1, x, y);
      } else {
        assert OnlyRevealed(p1.grid, p1.grid);
      }
      CheckWinOnlyReveals(p2, multiplayer, x, y);
      RevealsOnlyTrans(p.grid, p1.grid, p2.grid, x, y);
      RevealsOnlyTrans(p.grid, p2.grid, CheckWin(p2, multiplayer).grid, x, y);
    }
  }

  lemma {:induction false} PageVisitOnlyReveals(p: Play, multiplayer: bool, a: int, b: int, x: int, y: int)
    requires IsGrid(p.grid)
    ensures RevealsOnly(p.grid, PageVisit(p, multiplayer, a, b).grid, x, y)
    decreases Hidden(p.grid), 1, 1, 0
  {
    if InRange(p.grid, a, b) && !p.grid[a][b].isRevealed && !p.grid[a][b].isFlagged {
      PageRevealOnlyReveals(p, multiplayer, a, b);
      FlagsKeptMove(p.grid, PageReveal(p, multiplayer, a, b).grid, a, b, x, y);
    } else {
      assert OnlyRevealed(p.grid, p.grid);
    }
  }

  lemma {:induction false} PageExpandOnlyReveals(p: Play, multiplayer: bool, x: int, y: int, i: int, j: int, a: int, b: int)
    requires IsGrid(p.grid) && -1 <= i <= 2 && -1 <= j <= 1
    ensures RevealsOnly(p.grid, PageExpand(p, multiplayer, x, y, i, j).grid, a, b)
    decreases Hidden(p.grid), 2, 2 - i, 1 - j
  {
    if i < 2 {
      var p' := PageVisit(p, multiplayer, x + i, y + j);
      var i', j' := NextRow(i, j), NextCol(j);
      PageVisitOnlyReveals(p, multiplayer, x + i, y + j, a, b);
      PageExpandOnlyReveals(p', multiplayer, x, y, i', j', a, b);
      RevealsOnlyTrans(p.grid, p'.grid, PageExpand(p', multiplayer, x, y, i', j').grid, a, b);
    } else {
      assert OnlyRevealed(p.grid, p.grid);
    }
  }

  /** While the game runs, the page's reveal leaves its target revealed: a mine through
      `revealAllMines`, any other cell directly. */
  lemma PageRevealTarget(p: Play, multiplayer: bool, x: int, y: int)
    requires IsGrid(p.grid) && InRange(p.grid, x, y) && !p.over
    ensures PageReveal(p, multiplayer, x, y).grid[x][y].isRevealed
  {
    if !p.grid[x][y].isMine {
      var p1 := p.(grid := SetCell(p.grid, x, y, p.grid[x][y].SetRevealed(true)));
      RevealOneHides(p.grid, x, y);
      var p2 := if p.grid[x][y].adjacentMines == 0 then PageExpand(p1, multiplayer, x, y, -1, -1) else p1;
      if p.grid[x][y].adjacentMines == 0 {
        PageExpandOnlyReveals(p1, multiplayer, x, y, -1, -1, x, y);
        assert MoreRevealed(p1.grid[x][y], p2.grid[x][y]);
      }
      CheckWinOnlyReveals(p2, multiplayer, x, y);
      assert MoreRevealed(p2.grid[x][y], CheckWin(p2, multiplayer).grid[x][y]);
    }
  }

  // ---------------------------------------------------------------------------------------
  // What the page's reveal does to the game-over flag and the outbox
  // ---------------------------------------------------------------------------------------

  /** How a step of the page's code may end the game: once over, nothing changes; a step that
      ends it leaves every mine revealed and, in multiplayer mode, has sent exactly one
      GAME_OVER message, announcing a win only on a won board; a step that does not end it
      sends nothing. */
  predicate Ends(p: Play, r: Play, multiplayer: bool)
    requires IsGrid(r.grid)
  {
    (p.over ==> r == p)
    && (!p.over && r.over ==> MinesShown(r.grid))
    && if multiplayer && !p.over && r.over then
         |r.outbox| == |p.outbox| + 1
         && r.outbox == p.outbox + [GameOverMessage(r.outbox[|p.outbox|].isFlag)]
         && (r.outbox[|p.outbox|].isFlag ==> Won(r.grid))
       else r.outbox == p.outbox
  }

  lemma EndsTrans(a: Play, b: Play, c: Play, multiplayer: bool)
    requires IsGrid(b.grid) && IsGrid(c.grid) && Ends(a, b, multiplayer) && Ends(b, c, multiplayer)
    ensures Ends(a, c, multiplayer)
  {
  }

  /** Revealing cells keeps a board won. */
  lemma WonKept(g: Grid, r: Grid)
    requires IsGrid(g) && IsGrid(r) && OnlyRevealed(g, r) && Won(g)
    ensures Won(r)
  {
    forall i, j | 0 <= i < |g| && 0 <= j < |g|
      ensures (r[i][j].isMine ==> r[i][j].isFlagged) && (!r[i][j].isMine ==> r[i][j].isRevealed)
    {
      assert MoreRevealed(g[i][j], r[i][j]);
    }
  }

  /** `gameOver(won)` ends the game as described by `Ends`, if it was not over already. */
  lemma EndGameEnds(p: Play, multiplayer: bool, won: bool)
    requires IsGrid(p.grid) && (won ==> Won(p.grid))
    ensures Ends(p, EndGame(p, multiplayer, won), multiplayer)
    ensures !p.over ==> EndGame(p, multiplayer, won).over
  {
    if won && !p.over {
      WonKept(p.grid, RevealMines(p.grid));
    }
  }

  lemma CheckWinEnds(p: Play, multiplayer: bool)
    requires IsGrid(p.grid)
    ensures Ends(p, CheckWin(p, multiplayer), multiplayer)
  {
    if Won(p.grid) {
      EndGameEnds(p, multiplayer, true);
    }
  }

  lemma {:induction false} PageRevealEnds(p: Play, multiplayer: bool, x: int, y: int)
    requires IsGrid(p.grid) && InRange(p.grid, x, y)
    ensures Ends(p, PageReveal(p, multiplayer, x, y), multiplayer)
    decreases RevealRank(p.grid, x, y), 1, 0, 0
  {
    if p.over {
    } else if p.grid[x][y].isMine {
      EndGameEnds(p, multiplayer, false);
    } else {
      var p1 := p.(grid := SetCell(p.grid, x, y, p.grid[x][y].SetRevealed(true)));
      RevealOneHides(p.grid, x, y);
      var p2 := if p.grid[x][y].adjacentMines == 0 then PageExpand(p1, multiplayer, x, y, -1, -1) else p1;
      if p.grid[x][y].adjacentMines == 0 {
        PageExpandEnds(p1, multiplayer, x, y, -1, -1);
      }
      CheckWinEnds(p2, multiplayer);
      EndsTrans(p, p2, CheckWin(p2, multiplayer), multiplayer);
    }
  }

  lemma {:induction false} PageVisitEnds(p: Play, multiplayer: bool, a: int, b: int)
    requires IsGrid(p.grid)
    ensures Ends(p, PageVisit(p, multiplayer, a, b), multiplayer)
    decreases Hidden(p.grid), 1, 1, 0
  {
    if InRange(p.grid, a, b) && !p.grid[a][b].isRevealed && !p.grid[a][b].isFlagged {
      PageRevealEnds(p, multiplayer, a, b);
    }
  }

  lemma {:induction false} PageExpandEnds(p: Play, multiplayer: bool, x: int, y: int, i: int, j: int)
    requires IsGrid(p.grid) && -1 <= i <= 2 && -1 <= j <= 1
    ensures Ends(p, PageExpand(p, multiplayer, x, y, i, j), multiplayer)
    decreases Hidden(p.grid), 2, 2 - i, 1 - j
  {
    if i < 2 {
      var p' := PageVisit(p, multiplayer, x + i, y + j);
      var i', j' := NextRow(i, j), NextCol(j);
      PageVisitEnds(p, multiplayer, x + i, y + j);
      PageExpandEnds(p', multiplayer, x, y, i', j');
      EndsTrans(p, p', PageExpand(p', multiplayer, x, y, i', j'), multiplayer);
    }
  }

  /** A mine ends a running game as lost. */
  lemma PageRevealMine(p: Play, multiplayer: bool, x: int, y: int)
    requires IsGrid(p.grid) && InRange(p.grid, x, y) && !p.over && p.grid[x][y].isMine
    ensures PageReveal(p, multiplayer, x, y) == EndGame(p, multiplayer, false)
    ensures PageReveal(p, multiplayer, x, y).over
    ensures PageReveal(p, multiplayer, x, y).outbox == p.outbox + GameOverSent(multiplayer, false)
  {
  }

  /** `gameOver` is idempotent: a second call, with either outcome, changes nothing. */
  lemma EndGameIdempotent(p: Play, multiplayer: bool, won: bool, won': bool)
    requires IsGrid(p.grid)
    ensures EndGame(EndGame(p, multiplayer, won), multiplayer, won') == EndGame(p, multiplayer, won)
  {
  }

  // ---------------------------------------------------------------------------------------
  // The outbox does not steer the reveal
  // ---------------------------------------------------------------------------------------

  /** `r` with the messages `o` sent before it. */
  function Prefixed(r: Play, o: seq<GameMessage>): Play
  {
    r.(outbox := o + r.outbox)
  }

  lemma EndGameShift(p: Play, multiplayer: bool, won: bool, o: seq<GameMessage>)
    requires IsGrid(p.grid)
    ensures EndGame(Prefixed(p, o), multiplayer, won) == Prefixed(EndGame(p, multiplayer, won), o)
  {
    if !p.over {
      assert (o + p.outbox) + GameOverSent(multiplayer, won) == o + (p.outbox + GameOverSent(multiplayer, won));
    }
  }

  lemma {:induction false} PageRevealShift(p: Play, multiplayer: bool, x: int, y: int, o: seq<GameMessage>)
    requires IsGrid(p.grid) && InRange(p.grid, x, y)
    ensures PageReveal(Prefixed(p, o), multiplayer, x, y) == Prefixed(PageReveal(p, multiplayer, x, y), o)
    decreases RevealRank(p.grid, x, y), 1, 0, 0
  {
    if p.over {
    } else if p.grid[x][y].isMine {
      EndGameShift(p, multiplayer, false, o);
    } else {
      var p1 := p.(grid := SetCell(p.grid, x, y, p.grid[x][y].SetRevealed(true)));
      RevealOneHides(p.grid, x, y);
      var p2 := if p.grid[x][y].adjacentMines == 0 then PageExpand(p1, multiplayer, x, y, -1, -1) else p1;
      if p.grid[x][y].adjacentMines == 0 {
        PageExpandShift(p1, multiplayer, x, y, -1, -1, o);
      }
      assert (if p.grid[x][y].adjacentMines == 0 then PageExpand(Prefixed(p1, o), multiplayer, x, y, -1, -1)
        else Prefixed(p1, o)) == Prefixed(p2, o);
      EndGameShift(p2, multiplayer, true, o);
    }
  }

  lemma {:induction false} PageVisitShift(p: Play, multiplayer: bool, a: int, b: int, o: seq<GameMessage>)
    requires IsGrid(p.grid)
    ensures PageVisit(Prefixed(p, o), multiplayer, a, b) == Prefixed(PageVisit(p, multiplayer, a, b), o)
    decreases Hidden(p.grid), 1, 1, 0
  {
    if InRange(p.grid, a, b) && !p.grid[a][b].isRevealed && !p.grid[a][b].isFlagged {
      PageRevealShift(p, multiplayer, a, b, o);
    }
  }

  lemma {:induction false} PageExpandShift(p: Play, multiplayer: bool, x: int, y: int, i: int, j: int, o: seq<GameMessage>)
    requires IsGrid(p.grid) && -1 <= i <= 2 && -1 <= j <= 1
    ensures PageExpand(Prefixed(p, o), multiplayer, x, y, i, j) == Prefixed(PageExpand(p, multiplayer, x, y, i, j), o)
    decreases Hidden(p.grid), 2, 2 - i, 1 - j
  {
    if i < 2 {
      var p' := PageVisit(p, multiplayer, x + i, y + j);
      var i', j' := NextRow(i, j), NextCol(j);
      PageVisitShift(p, multiplayer, x + i, y + j, o);
      PageExpandShift(p', multiplayer, x, y, i', j', o);
    }
  }

  /** Two pages with the same cells and game-over flag reveal the same cells and reach the
      same game-over flag, whatever they have sent before. */
  lemma PageRevealIgnoresOutbox(g: Grid, over: bool, o: seq<GameMessage>, o': seq<GameMessage>, multiplayer: bool, x: int, y: int)
    requires IsGrid(g) && InRange(g, x, y)
    ensures PageReveal(Play(g, over, o), multiplayer, x, y).grid == PageReveal(Play(g, over, o'), multiplayer, x, y).grid
    ensures PageReveal(Play(g, over, o), multiplayer, x, y).over == PageReveal(Play(g, over, o'), multiplayer, x, y).over
  {
    var p := Play(g, over, []);
    PageRevealShift(p, multiplayer, x, y, o);
    PageRevealShift(p, multiplayer, x, y, o');
    assert Prefixed(p, o) == Play(g, over, o);
    assert Prefixed(p, o') == Play(g, over, o');
  }

  // ---------------------------------------------------------------------------------------
  // Agreement with the board's flood fill
  // ---------------------------------------------------------------------------------------

  /** Revealing cells keeps the adjacency counts exact. */
  lemma AdjacencyKept(g: Grid, r: Grid)
    requires IsGrid(g) && IsGrid(r) && OnlyRevealed(g, r) && AdjacencyCorrect(g)
    ensures AdjacencyCorrect(r)
  {
    forall i, j | 0 <= i < |g| && 0 <= j < |g| ensures MoreRevealed(g[i][j], r[i][j]) { }
    SameMinesSameAround(g, r);
  }

  /** Under exact counts no neighbour of an empty non-mine cell is a mine. */
  lemma EmptyHasNoMinedNeighbour(g: Grid, x: int, y: int, a: int, b: int)
    requires IsGrid(g) && AdjacencyCorrect(g) && InRange(g, x, y) && Spreads(g[x][y])
    requires InRange(g, a, b) && Near(x, y, a, b) && !(a == x && b == y)
    ensures !g[a][b].isMine
  {
    assert Pos(a, b) !in MinedAround(g, x, y);
  }

  /** A step of the page's code that leaves the game running was not started on a finished
      game, and a check for the win that leaves it running found no win. */
  lemma CheckWinRunning(p: Play, multiplayer: bool)
    requires IsGrid(p.grid) && !CheckWin(p, multiplayer).over
    ensures CheckWin(p, multiplayer) == p
  {
  }

  /** While the game keeps running, the page's reveal of an unflagged non-mine cell does
      exactly what `Board.revealCell` does, and sends nothing. */
  lemma {:induction false} PageRevealAgrees(p: Play, multiplayer: bool, x: int, y: int)
    requires IsGrid(p.grid) && AdjacencyCorrect(p.grid) && InRange(p.grid, x, y)
    requires !p.grid[x][y].isMine && !p.grid[x][y].isFlagged
    requires !PageReveal(p, multiplayer, x, y).over
    ensures PageReveal(p, multiplayer, x, y).grid == Reveal(p.grid, x, y)
    ensures PageReveal(p, multiplayer, x, y).over == p.over && PageReveal(p, multiplayer, x, y).outbox == p.outbox
    decreases RevealRank(p.grid, x, y), 1, 0, 0
  {
    var p1 := p.(grid := SetCell(p.grid, x, y, p.grid[x][y].SetRevealed(true)));
    RevealOneHides(p.grid, x, y);
    var p2 := if p.grid[x][y].adjacentMines == 0 then PageExpand(p1, multiplayer, x, y, -1, -1) else p1;
    CheckWinRunning(p2, multiplayer);
    if p.grid[x][y].adjacentMines == 0 {
      RevealHereOnlyReveals(p.grid, x, y);
      AdjacencyKept(p.grid, p1.grid);
      PageExpandAgrees(p1, multiplayer, x, y, -1, -1);
    }
  }

  /** The state of the grid while the loops of `revealAdjacentCells` run round (x, y): the
      counts are exact and the centre is a revealed cell with no mined neighbour. */
  predicate Flooding(g: Grid, x: int, y: int)
  {
    IsGrid(g) && AdjacencyCorrect(g) && InRange(g, x, y) && g[x][y].isRevealed && Spreads(g[x][y])
  }

  lemma {:induction false} PageExpandAgrees(p: Play, multiplayer: bool, x: int, y: int, i: int, j: int)
    requires Flooding(p.grid, x, y) && -1 <= i <= 2 && -1 <= j <= 1
    requires !PageExpand(p, multiplayer, x, y, i, j).over
    ensures PageExpand(p, multiplayer, x, y, i, j).grid == Expand(p.grid, x, y, i, j)
    ensures PageExpand(p, multiplayer, x, y, i, j).over == p.over && PageExpand(p, multiplayer, x, y, i, j).outbox == p.outbox
    decreases Hidden(p.grid), 2, 2 - i, 1 - j
  {
    if i < 2 {
      var a, b := x + i, y + j;
      var p' := PageVisit(p, multiplayer, a, b);
      var i', j' := NextRow(i, j), NextCol(j);
      PageExpandUnfold(p, multiplayer, x, y, i, j, a, b);
      ExpandStepAgrees(p, multiplayer, x, y, a, b, i', j');
      PageExpandAgrees(p', multiplayer, x, y, i', j');
      ExpandUnfoldAt(p.grid, x, y, i, j, a, b);
    }
  }

  /** One round of those loops, on the neighbour (a, b), while the game keeps running: the
      page's visit agrees with the board's and leaves the grid ready for the next round. */
  lemma {:induction false} ExpandStepAgrees(p: Play, multiplayer: bool, x: int, y: int, a: int, b: int, k: int, l: int)
    requires Flooding(p.grid, x, y) && Near(x, y, a, b) && -1 <= k <= 2 && -1 <= l <= 1
    requires !PageExpand(PageVisit(p, multiplayer, a, b), multiplayer, x, y, k, l).over
    ensures var p' := PageVisit(p, multiplayer, a, b);
      Flooding(p'.grid, x, y) && p'.grid == Visit(p.grid, a, b) && p'.over == p.over && p'.outbox == p.outbox
    decreases Hidden(p.grid), 1, 2, 0
  {
    var p' := PageVisit(p, multiplayer, a, b);
    ExpandRunning(p', multiplayer, x, y, k, l);
    if InRange(p.grid, a, b) && !p.grid[a][b].isRevealed && !p.grid[a][b].isFlagged {
      EmptyHasNoMinedNeighbour(p.grid, x, y, a, b);
      PageRevealAgrees(p, multiplayer, a, b);
    }
    ExpandStepReady(p, multiplayer, x, y, a, b);
  }

  /** One round of the loops of `revealAdjacentCells`, on the neighbour (a, b). */
  lemma PageExpandUnfold(p: Play, multiplayer: bool, x: int, y: int, i: int, j: int, a: int, b: int)
    requires IsGrid(p.grid) && -1 <= i < 2 && -1 <= j <= 1 && a == x + i && b == y + j
    ensures PageExpand(p, multiplayer, x, y, i, j)
      == PageExpand(PageVisit(p, multiplayer, a, b), multiplayer, x, y, NextRow(i, j), NextCol(j))
  {
    assert PageVisit(p, multiplayer, x + i, y + j) == PageVisit(p, multiplayer, a, b);
  }

  /** One round of the board's neighbour loops, on the neighbour (a, b). */
  lemma ExpandUnfoldAt(g: Grid, x: int, y: int, i: int, j: int, a: int, b: int)
    requires IsGrid(g) && -1 <= i < 2 && -1 <= j <= 1 && a == x + i && b == y + j
    ensures Expand(g, x, y, i, j) == Expand(Visit(g, a, b), x, y, NextRow(i, j), NextCol(j))
  {
    ExpandUnfold(g, x, y, i, j);
  }

  /** The loops of `revealAdjacentCells` leave the game running only if it ran before them. */
  lemma ExpandRunning(p: Play, multiplayer: bool, x: int, y: int, i: int, j: int)
    requires IsGrid(p.grid) && -1 <= i <= 2 && -1 <= j <= 1 && !PageExpand(p, multiplayer, x, y, i, j).over
    ensures !p.over
  {
    PageExpandEnds(p, multiplayer, x, y, i, j);
  }

  /** A round of those loops keeps the centre an empty revealed cell and the counts exact. */
  lemma ExpandStepReady(p: Play, multiplayer: bool, x: int, y: int, a: int, b: int)
    requires Flooding(p.grid, x, y)
    ensures Flooding(PageVisit(p, multiplayer, a, b).grid, x, y)
  {
    var p' := PageVisit(p, multiplayer, a, b);
    PageVisitOnlyReveals(p, multiplayer, a, b, x, y);
    AdjacencyKept(p.grid, p'.grid);
    assert MoreRevealed(p.grid[x][y], p'.grid[x][y]);
  }
}
