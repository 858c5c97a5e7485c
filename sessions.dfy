/** The session record of model/GameState.java as a value: the board, the game-over and
    turn flags, the player number, the multiplayer and host flags and the two player names.
    The singleton accessor and the server and client references are not part of it. The
    class GameStates.GameState runs the same operations in place and is proved equal to
    these functions. */
module Sessions {
  import opened Wrappers
  import opened Minefield
  import Placement

  datatype Session = Session(
    board: Minefield,
    isGameOver: bool,
    isPlayerTurn: bool,
    currentPlayer: int,
    isMultiplayer: bool,
    isHost: bool,
    playerName: Option<string>,
    opponentName: Option<string>)
  {
    predicate Valid()
    {
      board.Valid()
    }
  }

  /** `resetGame`: a fresh default board, the game running, the host to move and player 1
      current; multiplayer mode, role and names are what they were. */
  function ResetGame(s: Session): Session
  {
    Session(DefaultMinefield(), false, s.isHost, 1, s.isMultiplayer, s.isHost, s.playerName, s.opponentName)
  }

  /** The private constructor: every field at its Java default, then `resetGame`. */
  function NewSession(): (s: Session)
    ensures s.Valid() && !s.isMultiplayer && !s.isHost && s.playerName == None && s.opponentName == None
  {
    ResetGame(Session(DefaultMinefield(), false, false, 0, false, false, None, None))
  }

  /** `startMultiplayerGame(asHost)` */
  function StartMultiplayerGame(s: Session, asHost: bool): Session
  {
    ResetGame(s).(isMultiplayer := true, isHost := asHost, isPlayerTurn := asHost)
  }

  /** `togglePlayerTurn` */
  function TogglePlayerTurn(s: Session): Session
  {
    s.(isPlayerTurn := !s.isPlayerTurn)
  }

  /** `setPlayerTurn(b)`: the field is written only when it differs. */
  function SetPlayerTurn(s: Session, b: bool): Session
  {
    if s.isPlayerTurn != b then s.(isPlayerTurn := b) else s
  }

  /** `setGameOver(b)` */
  function SetGameOver(s: Session, b: bool): Session
  {
    s.(isGameOver := b)
  }

  /** `applyMove(x, y, isFlag)`: the board toggles a flag or runs its own flood fill, then the
      turn passes. */
  function ApplyMove(s: Session, x: int, y: int, isFlag: bool): Session
    requires s.Valid()
  {
    var g := if isFlag then ToggleFlag(s.board.grid, x, y) else Reveal(s.board.grid, x, y);
    TogglePlayerTurn(s.(board := s.board.(grid := g)))
  }

  /** `checkWinCondition` */
  predicate CheckWinCondition(s: Session)
    requires s.Valid()
  {
    Won(s.board.grid)
  }

  // ---------------------------------------------------------------------------------------
  // Properties
  // ---------------------------------------------------------------------------------------

  /** A reset installs a fresh 10 x 10 board with 20 mines still to place, restarts the game
      with the host to move, and keeps the session's identity. */
  lemma ResetFacts(s: Session)
    ensures var r := ResetGame(s);
      r.Valid() && r.board == DefaultMinefield() && !r.board.minesPlaced
      && r.board.size == 10 && r.board.numberOfMines == 20
      && !r.isGameOver && r.isPlayerTurn == s.isHost && r.currentPlayer == 1
      && r.isMultiplayer == s.isMultiplayer && r.isHost == s.isHost
      && r.playerName == s.playerName && r.opponentName == s.opponentName
  {
  }

  /** Resetting twice is resetting once; a reset depends only on the session's identity. */
  lemma ResetIdempotent(s: Session, s': Session)
    ensures ResetGame(ResetGame(s)) == ResetGame(s)
    ensures s.isMultiplayer == s'.isMultiplayer && s.isHost == s'.isHost
      && s.playerName == s'.playerName && s.opponentName == s'.opponentName
      ==> ResetGame(s) == ResetGame(s')
  {
  }

  /** The constructor is a reset of an all-default record. */
  lemma NewSessionIsReset(s: Session)
    requires !s.isMultiplayer && !s.isHost && s.playerName == None && s.opponentName == None
    ensures NewSession() == ResetGame(s)
    ensures !NewSession().isPlayerTurn && !NewSession().isGameOver
  {
  }

  /** Starting a multiplayer game gives a fresh board in multiplayer mode with the host, and
      only the host, to move; a later reset keeps all of that. */
  lemma StartMultiplayerFacts(s: Session, asHost: bool)
    ensures var r := StartMultiplayerGame(s, asHost);
      r.Valid() && r.board == DefaultMinefield() && !r.isGameOver
      && r.isMultiplayer && r.isHost == asHost && r.isPlayerTurn == asHost
      && r.playerName == s.playerName && r.opponentName == s.opponentName
      && ResetGame(r) == r
  {
  }

  /** Toggling the turn flips it, and toggling twice gives the session back. */
  lemma ToggleTwice(s: Session)
    ensures TogglePlayerTurn(s).isPlayerTurn == !s.isPlayerTurn
    ensures TogglePlayerTurn(s) != s
    ensures TogglePlayerTurn(TogglePlayerTurn(s)) == s
  {
  }

  /** `setPlayerTurn(b)` leaves the flag equal to `b`: it changes nothing when the flag is
      already `b` and is a toggle otherwise. */
  lemma SetPlayerTurnFacts(s: Session, b: bool)
    ensures SetPlayerTurn(s, b).isPlayerTurn == b
    ensures SetPlayerTurn(s, b) == if s.isPlayerTurn == b then s else TogglePlayerTurn(s)
    ensures SetPlayerTurn(SetPlayerTurn(s, b), b) == SetPlayerTurn(s, b)
  {
  }

  /** `setGameOver` changes only the game-over flag. */
  lemma SetGameOverFacts(s: Session, b: bool)
    ensures SetGameOver(s, b).isGameOver == b
    ensures SetGameOver(s, b).(isGameOver := s.isGameOver) == s
  {
  }

  /** `applyMove` toggles the turn exactly once, changes the board only as the board's own
      operation does, and keeps the board invariant. */
  lemma ApplyMoveFacts(s: Session, x: int, y: int, isFlag: bool)
    requires s.Valid()
    ensures var r := ApplyMove(s, x, y, isFlag);
      r.Valid() && r.isPlayerTurn == !s.isPlayerTurn
      && r.board.grid == (if isFlag then ToggleFlag(s.board.grid, x, y) else Reveal(s.board.grid, x, y))
      && r.(board := s.board, isPlayerTurn := s.isPlayerTurn) == s
  {
    if isFlag {
      Placement.ToggleFlagValid(s.board, x, y);
    } else {
      RevealOnlyReveals(s.board.grid, x, y);
      Placement.RevealedValid(s.board, Reveal(s.board.grid, x, y));
    }
  }

  /** A flag move applied twice gives the session back: the flag and the turn both return. */
  lemma FlagMoveTwice(s: Session, x: int, y: int)
    requires s.Valid()
    ensures ApplyMove(s, x, y, true).Valid()
    ensures ApplyMove(ApplyMove(s, x, y, true), x, y, true) == s
  {
    Placement.ToggleFlagValid(s.board, x, y);
    Placement.ToggleFlagTwice(s.board.grid, x, y);
  }
}
