/** The game logic of ui/pages/GamePage.java as a class over the shared GameState object and
    an outbox of the messages the page sends. The page's own reveal is recursive like the
    board's and is proved, call by call, to do what the functions of module Pages describe;
    the handlers are proved to do what the functions of module PageActions describe. */
module GamePages {
  import opened Wrappers
  import opened Minefield
  import opened Messages
  import opened Boards
  import opened GameStates
  import opened Pages
  import PA = PageActions
  import Placement

  /** From `p`, the loops of `revealAdjacentCells` run from offset (i, j) on lead to `t`;
      j == 2 stands for the end of row i. */
  ghost predicate PageLeads(p: Play, multiplayer: bool, x: int, y: int, i: int, j: int, t: Play)
  {
    IsGrid(p.grid) && -1 <= i <= 2 && -1 <= j <= 2 && (j == 2 ==> i <= 1) &&
    t == if j == 2 then PageExpand(p, multiplayer, x, y, i + 1, -1) else PageExpand(p, multiplayer, x, y, i, j)
  }

  /** A round of the loops of `revealAdjacentCells` that recurses into (x + i, y + j): the
      call is on a smaller measure, and afterwards the rest of the loops still lead to `t`. */
  lemma VisitStep(g: Grid, cur: Play, multiplayer: bool, x: int, y: int, i: int, j: int, t: Play)
    requires IsGrid(g) && Hidden(cur.grid) <= Hidden(g)
    requires -1 <= i <= 1 && -1 <= j <= 1 && PageLeads(cur, multiplayer, x, y, i, j, t)
    requires InRange(cur.grid, x + i, y + j) && !cur.grid[x + i][y + j].isRevealed && !cur.grid[x + i][y + j].isFlagged
    ensures RevealRank(cur.grid, x + i, y + j) <= Hidden(g)
    ensures Hidden(PageReveal(cur, multiplayer, x + i, y + j).grid) <= Hidden(g)
    ensures PageLeads(PageReveal(cur, multiplayer, x + i, y + j), multiplayer, x, y, i, j + 1, t)
  {
    assert PageExpand(cur, multiplayer, x, y, i, j)
      == PageExpand(PageVisit(cur, multiplayer, x + i, y + j), multiplayer, x, y, NextRow(i, j), NextCol(j));
  }

  /** A round of the loops of `revealAdjacentCells` that skips (x + i, y + j). */
  lemma SkipVisit(cur: Play, multiplayer: bool, x: int, y: int, i: int, j: int, t: Play)
    requires -1 <= i <= 1 && -1 <= j <= 1 && PageLeads(cur, multiplayer, x, y, i, j, t)
    requires !(InRange(cur.grid, x + i, y + j) && !cur.grid[x + i][y + j].isRevealed && !cur.grid[x + i][y + j].isFlagged)
    ensures PageLeads(cur, multiplayer, x, y, i, j + 1, t)
  {
    assert PageExpand(cur, multiplayer, x, y, i, j)
      == PageExpand(PageVisit(cur, multiplayer, x + i, y + j), multiplayer, x, y, NextRow(i, j), NextCol(j));
  }

  /** The end of row i is the start of row i + 1. */
  lemma PageRowEnd(p: Play, multiplayer: bool, x: int, y: int, i: int, t: Play)
    requires -1 <= i <= 1 && PageLeads(p, multiplayer, x, y, i, 2, t)
    ensures PageLeads(p, multiplayer, x, y, i + 1, -1, t)
  {
  }

  class GamePage {
    const gameState: GameState
    var outbox: seq<GameMessage>

    ghost predicate Valid()
      reads this, gameState, gameState.board, gameState.board.cells
    {
      gameState.Valid()
    }

    /** The page as a value. */
    ghost function Model(): PA.Page
      requires gameState.board.Shaped()
      reads this, gameState, gameState.board, gameState.board.cells
    {
      PA.Page(gameState.Model(), outbox)
    }

    /** The page's reveal state is `p`. */
    ghost predicate Holds(p: Play)
      reads this, gameState, gameState.board, gameState.board.cells
    {
      gameState.board.Holds(p.grid) && gameState.isGameOver == p.over && outbox == p.outbox
    }

    /** The game logic of the constructor: in multiplayer mode the host moves first, and the
        page announces its player's name. */
    constructor (gameState: GameState)
      requires gameState.Valid()
      modifies gameState`isPlayerTurn
      ensures this.gameState == gameState && Valid()
      ensures Model() == PA.OpenPage(old(PA.Page(gameState.Model(), [])))
    {
      this.gameState := gameState;
      outbox := [];
      new;
      if gameState.isMultiplayer {
        gameState.SetPlayerTurn(gameState.isHost);
        SendPlayerJoined();
      }
    }

    /** `isValidPosition` */
    function IsValidPosition(x: int, y: int): (r: bool)
      requires gameState.board.Shaped()
      reads this, gameState, gameState.board, gameState.board.cells
      ensures r <==> InRange(gameState.board.Grid(), x, y)
    {
      0 <= x < gameState.board.size && 0 <= y < gameState.board.size
    }

    /** `revealCell(x, y)`: nothing once the game is over; a mine loses the game; otherwise
        reveal the cell, flood from it when it has no mined neighbour, and check for a win.
        The ghost `p` is the reveal state on entry. */
    method RevealCell(x: int, y: int, ghost p: Play)
      requires Holds(p) && InRange(p.grid, x, y)
      modifies gameState.board.cells, gameState`isGameOver, this`outbox
      ensures Holds(PageReveal(p, gameState.isMultiplayer, x, y))
      decreases RevealRank(p.grid, x, y), 1
    {
      if gameState.isGameOver {
        return;
      }
      var cells := gameState.board.cells;
      var cell := cells[x, y];
      if cell.isMine {
        GameOver(false, p);
        return;
      }
      cells[x, y] := cell.SetRevealed(true);
      ghost var p1 := p.(grid := SetCell(p.grid, x, y, p.grid[x][y].SetRevealed(true)));
      assert Holds(p1);
      RevealOneHides(p.grid, x, y);
      ghost var p2 := p1;
      if cell.adjacentMines == 0 {
        RevealAdjacentCells(x, y, p1);
        p2 := PageExpand(p1, gameState.isMultiplayer, x, y, -1, -1);
      }
      CheckWinCondition(p2);
    }

    /** `revealAdjacentCells(x, y)`: reveal every in-range, hidden, unflagged cell of the 3x3
        block round (x, y). The outer loop runs here, the inner one in `RevealAdjacentRow`. */
    method RevealAdjacentCells(x: int, y: int, ghost p: Play)
      requires Holds(p)
      modifies gameState.board.cells, gameState`isGameOver, this`outbox
      ensures Holds(PageExpand(p, gameState.isMultiplayer, x, y, -1, -1))
      decreases Hidden(p.grid), 4
    {
      ghost var cur: Play := p;
      ghost var t := PageExpand(p, gameState.isMultiplayer, x, y, -1, -1);
      var i := -1;
      while i <= 1
        invariant -1 <= i <= 2
        invariant Holds(cur) && Hidden(cur.grid) <= Hidden(p.grid)
        invariant PageLeads(cur, gameState.isMultiplayer, x, y, i, -1, t)
      {
        cur := RevealAdjacentRow(x, y, i, p.grid, cur, t);
        i := i + 1;
      }
      assert cur == t;
    }

    /** The inner loop of `revealAdjacentCells`, for row offset `i`; `g` gives the
        termination measure, `cur` is the reveal state on entry and `r` the one on exit. */
    method RevealAdjacentRow(x: int, y: int, i: int, ghost g: Grid, ghost cur: Play, ghost t: Play) returns (ghost r: Play)
      requires Holds(cur) && IsGrid(g) && Hidden(cur.grid) <= Hidden(g)
      requires -1 <= i <= 1 && PageLeads(cur, gameState.isMultiplayer, x, y, i, -1, t)
      modifies gameState.board.cells, gameState`isGameOver, this`outbox
      ensures Holds(r) && Hidden(r.grid) <= Hidden(g)
      ensures PageLeads(r, gameState.isMultiplayer, x, y, i + 1, -1, t)
      decreases Hidden(g), 3
    {
      r := cur;
      var j := -1;
      while j <= 1
        invariant -1 <= j <= 2
        invariant Holds(r) && Hidden(r.grid) <= Hidden(g)
        invariant PageLeads(r, gameState.isMultiplayer, x, y, i, j, t)
      {
        r := VisitNeighbour(x, y, i, j, g, r, t);
        j := j + 1;
      }
      PageRowEnd(r, gameState.isMultiplayer, x, y, i, t);
    }

    /** One round of the inner loop: reveal (x + i, y + j) when it is on the board, hidden
        and unflagged. */
    method VisitNeighbour(x: int, y: int, i: int, j: int, ghost g: Grid, ghost cur: Play, ghost t: Play) returns (ghost r: Play)
      requires Holds(cur) && IsGrid(g) && Hidden(cur.grid) <= Hidden(g)
      requires -1 <= i <= 1 && -1 <= j <= 1 && PageLeads(cur, gameState.isMultiplayer, x, y, i, j, t)
      modifies gameState.board.cells, gameState`isGameOver, this`outbox
      ensures Holds(r) && Hidden(r.grid) <= Hidden(g)
      ensures PageLeads(r, gameState.isMultiplayer, x, y, i, j + 1, t)
      decreases Hidden(g), 2
    {
      r := cur;
      ghost var mp := gameState.isMultiplayer;
      var newX, newY := x + i, y + j;
      if IsValidPosition(newX, newY) {
        var adjacentCell := gameState.board.cells[newX, newY];
        if !adjacentCell.isRevealed && !adjacentCell.isFlagged {
          VisitStep(g, cur, mp, x, y, i, j, t);
          RevealCell(newX, newY, cur);
          r := PageReveal(cur, mp, newX, newY);
        } else {
          SkipVisit(cur, mp, x, y, i, j, t);
        }
      } else {
        SkipVisit(cur, mp, x, y, i, j, t);
      }
    }

    /** The page's `checkWinCondition` */
    method CheckWinCondition(ghost p: Play)
      requires Holds(p)
      modifies gameState.board.cells, gameState`isGameOver, this`outbox
      ensures Holds(CheckWin(p, gameState.isMultiplayer))
    {
      var won := gameState.CheckWinCondition();
      gameState.board.HoldsGrid(p.grid);
      if won {
        GameOver(true, p);
      }
    }

    /** `gameOver(won)`: nothing once the game is over; otherwise end it, show the mines and
        tell the opponent. */
    method GameOver(won: bool, ghost p: Play)
      requires Holds(p)
      modifies gameState.board.cells, gameState`isGameOver, this`outbox
      ensures Holds(EndGame(p, gameState.isMultiplayer, won))
    {
      if gameState.isGameOver {
        return;
      }
      gameState.SetGameOver(true);
      RevealAllMines(p.grid);
      SendGameOver(won);
    }

    /** `revealAllMines` */
    method RevealAllMines(ghost g: Grid)
      requires gameState.board.Holds(g)
      modifies gameState.board.cells
      ensures gameState.board.Holds(RevealMines(g))
    {
      var cells := gameState.board.cells;
      var size := gameState.board.size;
      ghost var r := RevealMines(g);
      for i := 0 to size
        invariant forall p, q {:trigger cells[p, q]} :: 0 <= p < size && 0 <= q < size ==>
          cells[p, q] == if p < i then r[p][q] else g[p][q]
      {
        for j := 0 to size
          invariant forall p, q {:trigger cells[p, q]} :: 0 <= p < size && 0 <= q < size ==>
            cells[p, q] == if p < i || (p == i && q < j) then r[p][q] else g[p][q]
        {
          if cells[i, j].isMine {
            cells[i, j] := cells[i, j].SetRevealed(true);
          }
        }
      }
    }

    /** `sendMove(x, y)` */
    method SendMove(x: int, y: int)
      modifies this`outbox
      ensures outbox == old(outbox) + if gameState.isMultiplayer then [WithCoords(MOVE, x, y)] else []
    {
      if gameState.isMultiplayer {
        outbox := outbox + [WithCoords(MOVE, x, y)];
      }
    }

    /** `sendGameOver(won)` */
    method SendGameOver(won: bool)
      modifies this`outbox
      ensures outbox == old(outbox) + GameOverSent(gameState.isMultiplayer, won)
    {
      if gameState.isMultiplayer {
        outbox := outbox + [WithMove(GAME_OVER, 0, 0, won)];
      }
    }

    /** `sendDisconnect` */
    method SendDisconnect()
      modifies this`outbox
      ensures outbox == old(outbox) + if gameState.isMultiplayer then [TypeOnly(DISCONNECT)] else []
    {
      if gameState.isMultiplayer {
        outbox := outbox + [TypeOnly(DISCONNECT)];
      }
    }

    /** `sendPlayerJoined` */
    method SendPlayerJoined()
      modifies this`outbox
      ensures outbox == old(outbox) + if gameState.isMultiplayer then [WithName(PLAYER_JOINED, gameState.playerName)] else []
    {
      if gameState.isMultiplayer {
        outbox := outbox + [WithName(PLAYER_JOINED, gameState.playerName)];
      }
    }

    /** `sendMinePositions` */
    method SendMinePositions()
      requires gameState.board.Shaped()
      modifies this`outbox
      ensures outbox == old(outbox) + [PA.MinePositionsMessage(gameState.board.Grid())]
    {
      var positions := gameState.board.GetMinePositions();
      outbox := outbox + [WithPositions(MINE_POSITIONS, Some(positions))];
    }

    /** `sendResetRequest` */
    method SendResetRequest()
      requires gameState.board.Shaped()
      modifies this`outbox, gameState
      ensures Valid() && Model() == PA.SendResetRequest(old(Model()))
    {
      outbox := outbox + [TypeOnly(RESET_REQUEST)];
      gameState.ResetGame();
    }

    /** The page's `resetGame` */
    method ResetGame()
      requires gameState.board.Shaped()
      modifies this`outbox, gameState
      ensures Valid() && Model() == PA.ResetPage(old(Model()))
    {
      if gameState.isMultiplayer {
        SendResetRequest();
      } else {
        gameState.ResetGame();
      }
    }

    /** `exitToMenu`, up to the navigation. */
    method ExitToMenu()
      modifies this`outbox
      ensures outbox == old(outbox) + if gameState.isMultiplayer then [TypeOnly(DISCONNECT)] else []
    {
      if gameState.isMultiplayer {
        SendDisconnect();
      }
    }

    /** The reveal as the handlers run it, from the page's current state. */
    method RevealHere(x: int, y: int)
      requires Valid() && InRange(gameState.board.Grid(), x, y)
      modifies gameState.board.cells, gameState`isGameOver, this`outbox
      ensures Valid() && Model() == PA.RevealAt(old(Model()), x, y)
    {
      ghost var pg := Model();
      ghost var p := PageReveal(PA.PlayOf(pg), gameState.isMultiplayer, x, y);
      RevealCell(x, y, PA.PlayOf(pg));
      gameState.board.HoldsGrid(p.grid);
      assert Model() == PA.WithPlay(pg, p) == PA.RevealAt(pg, x, y);
    }

    /** `handleLeftClick(x, y)`; `draws` stands for the random cells `placeMines` draws. */
    method HandleLeftClick(x: int, y: int, draws: seq<Pos>)
      requires Valid() && InRange(gameState.board.Grid(), x, y)
      requires gameState.isHost && !gameState.board.minesPlaced ==>
        EnoughDraws(gameState.board.Model(), Pos(x, y), draws)
      modifies gameState`isPlayerTurn, gameState`isGameOver, gameState.board, gameState.board.cells, this`outbox
      ensures Valid() && Model() == PA.HandleLeftClick(old(Model()), x, y, draws)
    {
      var cell := gameState.board.cells[x, y];
      assert cell == Model().session.board.grid[x][y];
      if !cell.isRevealed && gameState.isPlayerTurn {
        FirstClick(x, y, draws);
        RevealHere(x, y);
        MoveDone(x, y);
      }
    }

    /** The first click of the host: the mines go in, away from (x, y), and a multiplayer
        host sends their positions. */
    method FirstClick(x: int, y: int, draws: seq<Pos>)
      requires Valid() && InRange(gameState.board.Grid(), x, y)
      requires gameState.isHost && !gameState.board.minesPlaced ==>
        EnoughDraws(gameState.board.Model(), Pos(x, y), draws)
      modifies gameState.board, gameState.board.cells, this`outbox
      ensures Valid() && Model() == PA.Prepared(old(Model()), x, y, draws)
      ensures InRange(gameState.board.Grid(), x, y)
    {
      var board := gameState.board;
      if gameState.isHost && !board.minesPlaced {
        board.PlaceMines(x, y, draws);
        if gameState.isMultiplayer {
          SendMinePositions();
        }
      }
    }

    /** After the reveal: a multiplayer move that did not end the game is sent and the turn
        passes. */
    method MoveDone(x: int, y: int)
      requires Valid()
      modifies gameState`isPlayerTurn, this`outbox
      ensures Valid() && Model() == PA.MoveMade(old(Model()), x, y)
    {
      if gameState.isMultiplayer && !gameState.isGameOver {
        SendMove(x, y);
        gameState.TogglePlayerTurn();
      }
    }

    /** `handleMessage(m)`: the branch for the message's type. */
    method HandleMessage(m: GameMessage)
      requires Valid() && PA.Readable(Model(), m)
      modifies gameState, gameState.board, gameState.board.cells, this`outbox
      ensures Valid() && Model() == PA.HandleMessage(old(Model()), m)
    {
      match m.msgType
      case MINE_POSITIONS =>
        HandleMinePositions(m);
      case MOVE =>
        HandleMove(m);
      case RESET_REQUEST =>
        gameState.ResetGame();
      case PLAYER_JOINED =>
        HandlePlayerJoined(m);
      case GAME_OVER =>
        HandleGameOver(m);
      case DISCONNECT =>
    }

    /** The MINE_POSITIONS branch: the host's mines, unless this board has its own. */
    method HandleMinePositions(m: GameMessage)
      requires Valid() && PA.Readable(Model(), m) && m.msgType == MINE_POSITIONS
      modifies gameState.board, gameState.board.cells
      ensures Valid() && Model() == PA.HandleMessage(old(Model()), m)
    {
      if !gameState.board.minesPlaced {
        gameState.board.PlaceMinesFromPositions(m.minePositions.value);
      }
    }

    /** The MOVE branch: the opponent's reveal, then the turn passes. */
    method HandleMove(m: GameMessage)
      requires Valid() && PA.Readable(Model(), m) && m.msgType == MOVE
      modifies gameState.board.cells, gameState`isGameOver, gameState`isPlayerTurn, this`outbox
      ensures Valid() && Model() == PA.HandleMessage(old(Model()), m)
    {
      ghost var pg := Model();
      PA.MovePlayed(pg, m);
      if !gameState.isGameOver {
        if !gameState.isHost {
          PlayMove(m.x, m.y);
        } else if !gameState.isPlayerTurn {
          PlayMove(m.x, m.y);
        }
      }
    }

    /** The opponent's move as both MOVE branches play it: the reveal, then the turn passes. */
    method PlayMove(x: int, y: int)
      requires Valid() && InRange(gameState.board.Grid(), x, y)
      modifies gameState.board.cells, gameState`isGameOver, gameState`isPlayerTurn, this`outbox
      ensures Valid()
      ensures var q := PA.RevealAt(old(Model()), x, y);
        Model() == q.(session := q.session.(isPlayerTurn := !q.session.isPlayerTurn))
    {
      RevealHere(x, y);
      gameState.TogglePlayerTurn();
    }

    /** The PLAYER_JOINED branch: record the opponent's name; the host answers with its own. */
    method HandlePlayerJoined(m: GameMessage)
      requires Valid() && m.msgType == PLAYER_JOINED
      modifies gameState`opponentName, this`outbox
      ensures Valid() && Model() == PA.HandleMessage(old(Model()), m)
    {
      gameState.SetOpponentName(m.playerName);
      if gameState.isHost {
        outbox := outbox + [WithName(PLAYER_JOINED, gameState.playerName)];
      }
    }

    /** The GAME_OVER branch: the game ends and the mines are shown, with nothing sent back. */
    method HandleGameOver(m: GameMessage)
      requires Valid() && m.msgType == GAME_OVER
      modifies gameState`isGameOver, gameState.board.cells
      ensures Valid() && Model() == PA.HandleMessage(old(Model()), m)
    {
      ghost var m0 := gameState.board.Model();
      gameState.SetGameOver(true);
      RevealAllMines(gameState.board.Grid());
      gameState.board.HoldsGrid(RevealMines(m0.grid));
      Placement.RevealedValid(m0, RevealMines(m0.grid));
    }
  }
}
