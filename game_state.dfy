/** model/GameState.java as a class: the board object and the session flags, updated in place.
    The singleton accessor and the server and client references are not modelled. Each method
    is proved to leave the object in the state the matching function of module Sessions
    describes. */
module GameStates {
  import opened Wrappers
  import opened Minefield
  import opened Boards
  import S = Sessions
  import Placement

  class GameState {
    var board: Board
    var isGameOver: bool
    var isPlayerTurn: bool
    var currentPlayer: int
    var isMultiplayer: bool
    var isHost: bool
    var playerName: Option<string>
    var opponentName: Option<string>

    /** The object as a session value. */
    ghost function Model(): S.Session
      requires board.Shaped()
      reads this, board, board.cells
    {
      S.Session(board.Model(), isGameOver, isPlayerTurn, currentPlayer, isMultiplayer, isHost, playerName, opponentName)
    }

    ghost predicate Valid()
      reads this, board, board.cells
    {
      board.Valid()
    }

    /** The private constructor: the fields at their Java defaults, then `resetGame`. The
        first board only stands in for the Java `null` until `resetGame` replaces it. */
    constructor ()
      ensures Valid() && Model() == S.NewSession()
      ensures fresh(board) && fresh(board.cells)
    {
      board := new Board.Default();
      isGameOver := false;
      isPlayerTurn := false;
      currentPlayer := 0;
      isMultiplayer := false;
      isHost := false;
      playerName := None;
      opponentName := None;
      new;
      ResetGame();
    }

    /** `resetGame`: a new default board; multiplayer mode, role and names are kept. */
    method ResetGame()
      requires board.Shaped()
      modifies this
      ensures Valid() && Model() == S.ResetGame(old(Model()))
      ensures fresh(board) && fresh(board.cells)
    {
      var wasMultiplayer, wasHost := isMultiplayer, isHost;
      var savedPlayerName, savedOpponentName := playerName, opponentName;
      board := new Board.Default();
      isGameOver := false;
      isPlayerTurn := wasHost;
      currentPlayer := 1;
      isMultiplayer := wasMultiplayer;
      isHost := wasHost;
      playerName := savedPlayerName;
      opponentName := savedOpponentName;
    }

    /** `startMultiplayerGame(asHost)` */
    method StartMultiplayerGame(asHost: bool)
      requires board.Shaped()
      modifies this
      ensures Valid() && Model() == S.StartMultiplayerGame(old(Model()), asHost)
      ensures fresh(board) && fresh(board.cells)
    {
      ResetGame();
      isMultiplayer := true;
      isHost := asHost;
      isPlayerTurn := asHost;
    }

    /** `checkWinCondition`: scan the cells row by row and stop at the first mine without a
        flag or the first hidden cell without a mine. */
    method CheckWinCondition() returns (won: bool)
      requires board.Shaped()
      ensures won == Won(board.Grid())
    {
      var cells := board.cells;
      for i := 0 to board.size
        invariant forall p, q :: 0 <= p < i && 0 <= q < board.size ==>
          (cells[p, q].isMine ==> cells[p, q].isFlagged) && (!cells[p, q].isMine ==> cells[p, q].isRevealed)
      {
        for j := 0 to board.size
          invariant forall p, q :: 0 <= p < i && 0 <= q < board.size ==>
            (cells[p, q].isMine ==> cells[p, q].isFlagged) && (!cells[p, q].isMine ==> cells[p, q].isRevealed)
          invariant forall q :: 0 <= q < j ==>
            (cells[i, q].isMine ==> cells[i, q].isFlagged) && (!cells[i, q].isMine ==> cells[i, q].isRevealed)
        {
          var cell := cells[i, j];
          if cell.isMine && !cell.isFlagged {
            assert board.Grid()[i][j] == cell;
            return false;
          }
          if !cell.isMine && !cell.isRevealed {
            assert board.Grid()[i][j] == cell;
            return false;
          }
        }
      }
      return true;
    }

    /** `setGameOver(b)` */
    method SetGameOver(b: bool)
      modifies this`isGameOver
      ensures isGameOver == b
    {
      isGameOver := b;
    }

    /** `togglePlayerTurn` */
    method TogglePlayerTurn()
      modifies this`isPlayerTurn
      ensures isPlayerTurn == !old(isPlayerTurn)
    {
      isPlayerTurn := !isPlayerTurn;
    }

    /** `setPlayerTurn(b)`: the field is written only when it differs. */
    method SetPlayerTurn(b: bool)
      modifies this`isPlayerTurn
      ensures isPlayerTurn == b
    {
      if isPlayerTurn != b {
        isPlayerTurn := b;
      }
    }

    /** `setCurrentPlayer(player)` */
    method SetCurrentPlayer(player: int)
      modifies this`currentPlayer
      ensures currentPlayer == player
    {
      currentPlayer := player;
    }

    /** `setPlayerName(name)` */
    method SetPlayerName(name: Option<string>)
      modifies this`playerName
      ensures playerName == name
    {
      playerName := name;
    }

    /** `setOpponentName(name)` */
    method SetOpponentName(name: Option<string>)
      modifies this`opponentName
      ensures opponentName == name
    {
      opponentName := name;
    }

    /** `applyMove(x, y, isFlag)`: the board's own flag toggle or flood fill, then the turn
        passes. */
    method ApplyMove(x: int, y: int, isFlag: bool)
      requires Valid()
      modifies this`isPlayerTurn, board.cells
      ensures Valid() && Model() == S.ApplyMove(old(Model()), x, y, isFlag)
    {
      ghost var s := Model();
      if isFlag {
        board.ToggleFlag(x, y);
      } else {
        ghost var g := board.Grid();
        board.RevealCell(x, y, g);
        board.HoldsGrid(Reveal(g, x, y));
        RevealOnlyReveals(g, x, y);
        Placement.RevealedValid(s.board, Reveal(g, x, y));
      }
      TogglePlayerTurn();
    }
  }
}
