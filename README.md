# Multiplayer Minesweeper: engine and turn logic

This project models the game core of a two-player networked Minesweeper written in Java:

- the square grid of cells, with mine placement, adjacency counts, flags and the recursive flood-fill reveal (`model/Cell.java`, `model/Board.java`);
- the session record, with game-over and turn flags, multiplayer mode, role and player names (`model/GameState.java`);
- the message record the two peers exchange (`network/GameMessage.java`);
- the game logic of the playing page (`ui/pages/GamePage.java`):
  - clicks;
  - the page's own reveal, which ends the game on a mine and checks for a win;
  - game over;
  - reset and exit;
  - the handling of each incoming message type.

The model is layered in the same way as the Java.

**Pure modules.** These are datatypes, functions and lemmas that state what each operation computes and prove its properties:

| Module | Models |
|---|---|
| `Cells` | a cell |
| `Minefield` | a board as a value |
| `FloodFill` | what `revealCell` reveals |
| `Placement` | mine placement, counting and the mine list |
| `Messages` | a message |
| `Sessions` | a session as a value |
| `Pages` | the page's reveal, game over and win check |
| `PageActions` | clicks, messages, reset and exit on a page value |

**Imperative classes.** These follow the objects the Java mutates:

- `Boards.Board` keeps its cells in an `array2<Cell>`.
- `GameStates.GameState` holds the board object and the session flags.
- `GamePages.GamePage` holds the game state and an outbox of sent messages.

Each method is proved to leave its object in the state that the matching pure function gives for the old state. For a method with loops, this is done through loop invariants.

The main proved properties are:

- **Flood fill.** `revealCell` reveals exactly the cells reachable from the target through empty cells. It never reveals a mine other than its target (the adjacency counts are exact). It leaves every spreading cell's neighbours settled, and calling it a second time changes nothing.
- **Mine placement.** `placeMines` mines exactly `numberOfMines` drawn cells and never the first click.
- **Mine list round trip.** `getMinePositions` lists each mine once, in row-major order. Giving that list to `placeMinesFromPositions` rebuilds the host's board.
- **Turns between two pages.** Two pages of one game stay on the same board as the moves go back and forth, and the turn passes from one to the other. A move that ends the game reaches the other page as GAME_OVER. A reset leaves both pages on a fresh board, with the host to move.

## Model

| member | source | states |
|---|---|---|
| Cells.NewCell | src/main/java/model/Cell.java:12-17 | a new cell has no mine, is hidden and unflagged, and counts 0 adjacent mines |
| Cells.Cell.SetMine | src/main/java/model/Cell.java:20-27 | `setMine` sets the mine flag and leaves the other three fields as they were |
| Cells.Cell.SetRevealed | src/main/java/model/Cell.java:20-27 | `setRevealed` sets the revealed flag and leaves the other fields |
| Cells.Cell.SetFlagged | src/main/java/model/Cell.java:20-27 | `setFlagged` sets the flag and leaves the other fields |
| Cells.Cell.SetAdjacentMines | src/main/java/model/Cell.java:20-27 | `setAdjacentMines` sets the count and leaves the other fields |
| Cells.SetThenGet | src/main/java/model/Cell.java:20-27 | each getter returns what its setter last stored; a setter overrides the one before |
| Minefield.FreshGrid | src/main/java/model/Board.java:29-35 | `initializeCells` gives an n x n grid of new cells |
| Minefield.NewMinefield | src/main/java/model/Board.java:22-27 | `new Board(size, n)` gives a valid, unplaced board of that size and mine count, all cells new |
| Minefield.DefaultMinefield | src/main/java/model/Board.java:10-20 | `new Board()` is the 10 x 10 board with 20 mines |
| Minefield.WithAdjacency | src/main/java/model/Board.java:93-102 | after `calculateAdjacentMines`, every non-mine cell counts exactly its mined neighbours; mines, flags and revealed state are unchanged |
| Minefield.WithMines | src/main/java/model/Board.java:60-79 | the cells that are mines are exactly the in-range members of the given set |
| Minefield.TakeMinesOutcome | src/main/java/model/Board.java:37-58 | with enough eligible draws the loop of `placeMines` stops; it mines exactly the requested number of cells, only drawn cells, never the first click |
| Minefield.DrawsSuffice | src/main/java/model/Board.java:42-54 | enough distinct eligible draws make the random loop end within them |
| Minefield.Reveal | src/main/java/model/Board.java:151-168 | the board's flood fill gives a grid of the same size and never adds hidden cells |
| Minefield.Expand | src/main/java/model/Board.java:156-165 | the two nested neighbour loops give a grid of the same size and never add hidden cells |
| Minefield.RevealOnlyReveals | src/main/java/model/Board.java:151-168 | `revealCell` changes nothing but `isRevealed`, reveals no flagged cell, and reveals its own unflagged in-range target |
| Minefield.ExpandOnlyReveals | src/main/java/model/Board.java:156-165 | the neighbour loops change nothing but `isRevealed` and reveal no flagged cell |
| Minefield.RevealTarget | src/main/java/model/Board.java:151-155 | an in-range unflagged target always ends revealed |
| Minefield.HiddenMonotone | src/main/java/model/Board.java:151-168 | revealing cells never increases the number of hidden cells (the recursion's measure) |
| FloodFill.RevealExact | src/main/java/model/Board.java:151-168 | besides the target, the fill reveals exactly the previously hidden cells reachable from it through empty non-mine cells (both directions) |
| FloodFill.RevealSound | src/main/java/model/Board.java:151-168 | every cell the fill reveals is reachable from the target |
| FloodFill.FloodReachedCell | src/main/java/model/Board.java:151-168 | every cell reachable from an unflagged target ends revealed |
| FloodFill.RevealCloses | src/main/java/model/Board.java:156-165 | every empty cell the fill reveals, and an empty target, has all its neighbours revealed or flagged afterwards |
| FloodFill.RevealAvoidsMines | src/main/java/model/Board.java:151-168 | with exact adjacency counts the fill never reveals a mine other than its target |
| FloodFill.RevealIdempotent | src/main/java/model/Board.java:151-168 | revealing the same cell a second time changes nothing |
| FloodFill.RevealSettledNoop | src/main/java/model/Board.java:151-168 | revealing a revealed cell whose neighbours are settled, or that does not spread, changes nothing |
| Placement.CountAdjacent | src/main/java/model/Board.java:104-116 | `countAdjacentMines` counts the mined neighbours, plus one when the centre is a mine (its loops include offset (0, 0)) |
| Placement.CountFromSize | src/main/java/model/Board.java:106-115 | the loop counter equals the size of the set of mined cells it has passed over |
| Placement.AdjacencyAtMostEight | src/main/java/model/Board.java:93-102 | a cell has at most 8 mined neighbours, so every stored count is within 0..8 |
| Placement.PlaceMinesOutcome | src/main/java/model/Board.java:37-58 | on an empty board `placeMines` produces a valid placed board with exactly `numberOfMines` mines, none on the first click, all drawn, and every cell's revealed and flagged state kept |
| Placement.PlaceMinesOnce | src/main/java/model/Board.java:37-40 | on a placed board `placeMines` does nothing |
| Placement.TakenMines | src/main/java/model/Board.java:41-55 | the loop takes as many cells as asked (none for a negative count), all from the draws, never the first click |
| Placement.PlaceFromPositionsOutcome | src/main/java/model/Board.java:60-79 | on an empty board, the mines after `placeMinesFromPositions` are exactly the listed cells, and the counts are exact |
| Placement.PlaceFromPositionsOnce | src/main/java/model/Board.java:60-63 | on a placed board `placeMinesFromPositions` does nothing |
| Placement.PlaceFromPositionsDuplicate | src/main/java/model/Board.java:71-75 | listing a position twice changes nothing |
| Placement.MinePositionsExact | src/main/java/model/Board.java:81-91 | `getMinePositions` lists every mine and nothing else, each once, in row-major order |
| Placement.MineListRoundTrip | src/main/java/model/Board.java:37-91 | the host's mine list, given to the same empty board, rebuilds the host's placed board exactly |
| Placement.MineListRebuilds | src/main/java/model/Board.java:60-91 | a placed board's mine list, given to any empty board of the same size, gives the same mines and the same counts |
| Placement.ToggleFlagEffect | src/main/java/model/Board.java:145-149 | `toggleFlag` flips the flag of an in-range hidden cell and changes nothing else; in any other case the board is unchanged |
| Placement.ToggleFlagTwice | src/main/java/model/Board.java:145-149 | toggling the same cell twice gives the board back |
| Placement.ToggleFlagValid | src/main/java/model/Board.java:145-149 | toggling keeps the board invariant |
| Placement.RevealedValid | src/main/java/model/Board.java:151-168 | revealing cells keeps the board invariant |
| Placement.RevealedSameMines | src/main/java/model/Board.java:151-168 | revealing cells moves no mine |
| Placement.MineListSameMines | src/main/java/model/Board.java:81-91 | revealing cells leaves `getMinePositions` unchanged |
| Boards.Board.constructor | src/main/java/model/Board.java:22-27 | the new board object holds `NewMinefield(size, numberOfMines)` in a fresh array |
| Boards.Board.Default | src/main/java/model/Board.java:18-20 | the default board object holds the 10 x 10, 20-mine board |
| Boards.Board.InitializeCells | src/main/java/model/Board.java:29-35 | the nested loops leave a new cell in every position |
| Boards.Board.IsValidPosition | src/main/java/model/Board.java:118-120 | true exactly when (x, y) is on the board |
| Boards.Board.CountAdjacentMines | src/main/java/model/Board.java:104-116 | the loops return the mined in-range cells of the 3x3 block: the mined neighbours, plus one for a mined centre |
| Boards.Board.CalculateAdjacentMines | src/main/java/model/Board.java:93-102 | the array afterwards holds `WithAdjacency` of the old grid |
| Boards.Board.PlaceMines | src/main/java/model/Board.java:37-58 | the board afterwards is `PlaceMines` of the old board with the given draws |
| Boards.Board.DrawMines | src/main/java/model/Board.java:41-55 | the random loop mines exactly the cells `TakeMines` takes and changes no other field of any cell |
| Boards.Board.PlaceMinesFromPositions | src/main/java/model/Board.java:60-79 | the board afterwards is `PlaceMinesFromPositions` of the old board |
| Boards.Board.GetMinePositions | src/main/java/model/Board.java:81-91 | returns every mine once, in row-major order, and nothing else |
| Boards.Board.ToggleFlag | src/main/java/model/Board.java:145-149 | the array afterwards holds `ToggleFlag` of the old grid, and the board stays valid |
| Boards.Board.RevealCell | src/main/java/model/Board.java:151-168 | the recursive method leaves the array holding `Reveal` of the grid on entry |
| Boards.Board.RevealNeighbours | src/main/java/model/Board.java:156-165 | the nested loops leave the array holding `Expand` of the grid on entry |
| GameStates.GameState.constructor | src/main/java/model/GameState.java:19-21 | the new object holds `NewSession()`: a fresh board, not multiplayer, no names |
| GameStates.GameState.ResetGame | src/main/java/model/GameState.java:30-52 | the object afterwards holds `ResetGame` of the old session, on a fresh board object |
| GameStates.GameState.StartMultiplayerGame | src/main/java/model/GameState.java:54-59 | the object afterwards holds `StartMultiplayerGame` of the old session |
| GameStates.GameState.CheckWinCondition | src/main/java/model/GameState.java:61-74 | the scan returns true exactly when every mine is flagged and every other cell revealed |
| GameStates.GameState.SetGameOver | src/main/java/model/GameState.java:79 | the game-over flag becomes `b`; nothing else changes |
| GameStates.GameState.TogglePlayerTurn | src/main/java/model/GameState.java:81-86 | the turn flag flips; nothing else changes |
| GameStates.GameState.SetPlayerTurn | src/main/java/model/GameState.java:87-95 | the turn flag becomes `b`; nothing else changes |
| GameStates.GameState.SetCurrentPlayer | src/main/java/model/GameState.java:97 | the player number becomes the argument |
| GameStates.GameState.SetPlayerName | src/main/java/model/GameState.java:105 | the player name becomes the argument |
| GameStates.GameState.SetOpponentName | src/main/java/model/GameState.java:107 | the opponent name becomes the argument |
| GameStates.GameState.ApplyMove | src/main/java/model/GameState.java:109-116 | the object afterwards holds `ApplyMove` of the old session, and the board stays valid |
| Sessions.NewSession | src/main/java/model/GameState.java:19-21 | the first session is valid, single-player, not host, with no names |
| Sessions.ResetFacts | src/main/java/model/GameState.java:30-52 | a reset installs a fresh 10 x 10 board with 20 mines still to place, restarts the game with the host to move and player 1 current, and keeps mode, role and names |
| Sessions.ResetIdempotent | src/main/java/model/GameState.java:30-52 | resetting twice is resetting once, and a reset depends only on mode, role and names |
| Sessions.NewSessionIsReset | src/main/java/model/GameState.java:19-21 | the constructor is a reset of an all-default record; the game runs and it is not this player's turn |
| Sessions.StartMultiplayerFacts | src/main/java/model/GameState.java:54-59 | a fresh multiplayer game in which the host, and only the host, is to move; a later reset keeps that |
| Sessions.ToggleTwice | src/main/java/model/GameState.java:81-86 | toggling flips the turn, and toggling twice gives the session back |
| Sessions.SetPlayerTurnFacts | src/main/java/model/GameState.java:87-95 | `setPlayerTurn(b)` leaves the flag at `b`: a no-op when it already is, otherwise a toggle; idempotent |
| Sessions.SetGameOverFacts | src/main/java/model/GameState.java:79 | only the game-over flag changes |
| Sessions.ApplyMoveFacts | src/main/java/model/GameState.java:109-116 | `applyMove` toggles the turn once, changes the board only by its flag toggle or flood fill, and keeps the board valid |
| Sessions.FlagMoveTwice | src/main/java/model/GameState.java:109-116 | a flag move applied twice gives the session back |
| Messages.TypeOnly | src/main/java/network/GameMessage.java:30-38 | the type-only message has coordinates (-1, -1), no flag, no name and no positions |
| Messages.WithCoords | src/main/java/network/GameMessage.java:40-47 | the coordinate message has the given type and coordinates and default payload |
| Messages.WithMove | src/main/java/network/GameMessage.java:49-56 | the move message carries the given coordinates and flag |
| Messages.WithName | src/main/java/network/GameMessage.java:58-66 | the name message carries the name and default coordinates |
| Messages.WithPositions | src/main/java/network/GameMessage.java:68-75 | the positions message carries the list and default coordinates |
| Messages.ConstructorsAgree | src/main/java/network/GameMessage.java:30-99 | the constructors agree on their common defaults, and different names give different messages, so the getters read back what was sent |
| Pages.GameOverMessage | src/main/java/ui/pages/GamePage.java:643-658 | the GAME_OVER message sent has coordinates (0, 0) and carries the outcome |
| Pages.RevealMines | src/main/java/ui/pages/GamePage.java:448-458 | `revealAllMines` reveals exactly the mines, in addition to what was revealed, and changes nothing else |
| Pages.EndGameEnds | src/main/java/ui/pages/GamePage.java:427-446 | `gameOver` ends a running game with every mine shown and, in multiplayer mode, exactly one GAME_OVER message; a finished game is unchanged |
| Pages.EndGameIdempotent | src/main/java/ui/pages/GamePage.java:427-430 | a second `gameOver`, with either outcome, changes nothing |
| Pages.CheckWinEnds | src/main/java/ui/pages/GamePage.java:421-425 | the page's win check ends the game only as a win on a won board, and otherwise sends nothing |
| Pages.PageRevealOnlyReveals | src/main/java/ui/pages/GamePage.java:323-365 | the page's reveal changes nothing but `isRevealed`; the only flagged cells it reveals are mines at game end and its own target |
| Pages.PageRevealTarget | src/main/java/ui/pages/GamePage.java:323-350 | in a running game the target always ends revealed |
| Pages.PageRevealEnds | src/main/java/ui/pages/GamePage.java:323-365 | the page's reveal may end the game only as `gameOver` does, announcing a win only on a won board |
| Pages.PageRevealMine | src/main/java/ui/pages/GamePage.java:323-340 | a mine ends a running game as lost and sends GAME_OVER(false) in multiplayer mode |
| Pages.PageRevealShift | src/main/java/ui/pages/GamePage.java:323-365 | the reveal only appends to the outbox: earlier messages do not affect it |
| Pages.PageRevealIgnoresOutbox | src/main/java/ui/pages/GamePage.java:323-365 | two pages with the same cells and game-over flag reveal the same cells and reach the same flag |
| Pages.PageRevealAgrees | src/main/java/ui/pages/GamePage.java:323-369 | while the game keeps running, the page's reveal of an unflagged non-mine cell equals `Board.revealCell` and sends nothing |
| Pages.PageExpandAgrees | src/main/java/ui/pages/GamePage.java:352-365 | while the game keeps running, `revealAdjacentCells` round an empty revealed cell equals the board's neighbour loops |
| PageActions.RevealAt | src/main/java/ui/pages/GamePage.java:323-350 | the page's reveal on the session keeps the page valid and the board size |
| PageActions.Prepared | src/main/java/ui/pages/GamePage.java:298-306 | the first-click step keeps the page valid and the board size |
| PageActions.PreparedFacts | src/main/java/ui/pages/GamePage.java:298-306 | only the host's first click places mines, using the board's `placeMines`; it sends only the mine list, and only in multiplayer mode |
| PageActions.RevealAtFacts | src/main/java/ui/pages/GamePage.java:309 | the reveal step only reveals cells, ends the game as `gameOver` does, and keeps the rest of the session |
| PageActions.MoveMadeFacts | src/main/java/ui/pages/GamePage.java:310-318 | the move is sent and the turn passes exactly when the multiplayer game goes on |
| PageActions.ClickGuard | src/main/java/ui/pages/GamePage.java:288-290 | a click on a revealed cell, or out of turn, changes nothing |
| PageActions.FirstClickSafe | src/main/java/ui/pages/GamePage.java:288-321 | the host's first click places exactly `numberOfMines` mines, never on the clicked cell; in multiplayer mode the first message sent lists the board's mines |
| PageActions.ClickMessages | src/main/java/ui/pages/GamePage.java:288-321 | a click only appends messages. In multiplayer, a click that leaves the game running sends the mine list (on the first click) then the move, and passes the turn. A click that ends the game sends no move and keeps the turn. In single-player mode nothing is sent |
| PageActions.ClickOnMine | src/main/java/ui/pages/GamePage.java:288-340 | a click on a mine once mines are down ends the game as lost, keeps the turn, and sends exactly one GAME_OVER(false) in multiplayer mode |
| PageActions.MineListInRange | src/main/java/ui/pages/GamePage.java:714-717 | the mine list a board sends names cells of any board of its size |
| PageActions.HandleLeftClick | src/main/java/ui/pages/GamePage.java:288-321 | a click keeps the page valid |
| PageActions.HandleMessage | src/main/java/ui/pages/GamePage.java:507-598 | handling any readable message keeps the page valid |
| PageActions.MinePositionsHandled | src/main/java/ui/pages/GamePage.java:515-519 | a mine list is taken only by an empty board, which then holds exactly the listed mines; nothing is sent |
| PageActions.MoveHandled | src/main/java/ui/pages/GamePage.java:521-544 | a MOVE is ignored once the game is over, and by a host whose turn it is; otherwise the page plays it with its own reveal and the turn flips |
| PageActions.MovePlayed | src/main/java/ui/pages/GamePage.java:521-544 | the MOVE branch is the reveal followed by a turn toggle, or nothing |
| PageActions.GameOverHandled | src/main/java/ui/pages/GamePage.java:579-585 | GAME_OVER ends the game with all mines shown, only reveals cells, sends nothing and keeps the turn |
| PageActions.ResetAndDisconnectHandled | src/main/java/ui/pages/GamePage.java:546-591 | RESET_REQUEST resets the session and sends nothing; DISCONNECT changes nothing |
| PageActions.PlayerJoinedHandled | src/main/java/ui/pages/GamePage.java:564-577 | PLAYER_JOINED records the opponent's name; a host answers once with its own name |
| PageActions.RevealAtIgnoresOutbox | src/main/java/ui/pages/GamePage.java:323-365 | two pages with the same board and game-over flag reveal alike, whatever they have sent |
| PageActions.MoveInStep | src/main/java/ui/pages/GamePage.java:288-544 | a move that does not end the game leaves both pages on the same board, with the move sent once and the turn passed from the mover to the other page |
| PageActions.FirstMoveInStep | src/main/java/ui/pages/GamePage.java:288-544 | on the host's first move, the client's empty board becomes the host's board through MINE_POSITIONS; after the MOVE both pages agree and the turn has passed |
| PageActions.EndInStep | src/main/java/ui/pages/GamePage.java:288-585 | a move that ends the game sends exactly one message, GAME_OVER, which ends the game on the other page too |
| PageActions.ResetInStep | src/main/java/ui/pages/GamePage.java:476-562 | a reset request sent by one page and received by the other leaves both on a fresh board with the game running and only the host to move |
| GamePages.GamePage.constructor | src/main/java/ui/pages/GamePage.java:140-166 | in multiplayer mode the host moves first and the page announces its player's name |
| GamePages.GamePage.IsValidPosition | src/main/java/ui/pages/GamePage.java:367-369 | true exactly when (x, y) is on the board |
| GamePages.GamePage.RevealCell | src/main/java/ui/pages/GamePage.java:323-350 | the recursive method leaves the page in the state `PageReveal` gives |
| GamePages.GamePage.RevealAdjacentCells | src/main/java/ui/pages/GamePage.java:352-365 | the nested loops leave the page in the state `PageExpand` gives |
| GamePages.GamePage.CheckWinCondition | src/main/java/ui/pages/GamePage.java:421-425 | the page ends as `CheckWin` gives |
| GamePages.GamePage.GameOver | src/main/java/ui/pages/GamePage.java:427-446 | the page ends as `EndGame` gives |
| GamePages.GamePage.RevealAllMines | src/main/java/ui/pages/GamePage.java:448-458 | the loops leave the array holding `RevealMines` of the grid on entry |
| GamePages.GamePage.SendMove | src/main/java/ui/pages/GamePage.java:631-641 | in multiplayer mode exactly one MOVE with the coordinates is sent; otherwise nothing |
| GamePages.GamePage.SendGameOver | src/main/java/ui/pages/GamePage.java:643-658 | in multiplayer mode exactly one GAME_OVER with the outcome is sent; otherwise nothing |
| GamePages.GamePage.SendDisconnect | src/main/java/ui/pages/GamePage.java:660-677 | in multiplayer mode exactly one DISCONNECT is sent; otherwise nothing |
| GamePages.GamePage.SendPlayerJoined | src/main/java/ui/pages/GamePage.java:696-712 | in multiplayer mode exactly one PLAYER_JOINED with the player's name is sent; otherwise nothing |
| GamePages.GamePage.SendMinePositions | src/main/java/ui/pages/GamePage.java:714-717 | exactly one MINE_POSITIONS message with the board's mine list is sent |
| GamePages.GamePage.SendResetRequest | src/main/java/ui/pages/GamePage.java:476-505 | RESET_REQUEST is sent, then the session is reset locally |
| GamePages.GamePage.ResetGame | src/main/java/ui/pages/GamePage.java:460-474 | in multiplayer mode it is `sendResetRequest`; otherwise a local reset |
| GamePages.GamePage.ExitToMenu | src/main/java/ui/pages/GamePage.java:600-606 | in multiplayer mode exactly one DISCONNECT is sent; otherwise nothing |
| GamePages.GamePage.HandleLeftClick | src/main/java/ui/pages/GamePage.java:288-321 | the page afterwards is `PageActions.HandleLeftClick` of the old page |
| GamePages.GamePage.HandleMessage | src/main/java/ui/pages/GamePage.java:507-598 | the page afterwards is `PageActions.HandleMessage` of the old page, for every message type |
| GamePages.GamePage.HandleMove | src/main/java/ui/pages/GamePage.java:521-544 | the MOVE branch leaves the page as `PageActions.HandleMessage` says |
| GamePages.GamePage.HandleMinePositions | src/main/java/ui/pages/GamePage.java:515-519 | the MINE_POSITIONS branch leaves the page as `PageActions.HandleMessage` says |
| GamePages.GamePage.HandlePlayerJoined | src/main/java/ui/pages/GamePage.java:564-577 | the PLAYER_JOINED branch leaves the page as `PageActions.HandleMessage` says |
| GamePages.GamePage.HandleGameOver | src/main/java/ui/pages/GamePage.java:579-585 | the GAME_OVER branch leaves the page as `PageActions.HandleMessage` says |

## Left out

- **Networking.** `GameServer`, `GameClient`, sockets, serialization and `readFromStream` are left out. A sent message is appended to the page's `outbox`.
- **Null connections.** All send operations treat the server or client reference as present. Where the Java skips a null server or client, the model still appends the message.
- **Stopping the connection.** `sendDisconnect` stops the server or disconnects the client; the model does not. That belongs to the network layer.
- **Randomness.** `java.util.Random` in `placeMines` is replaced by a parameter `draws`, the sequence of cells the generator would return.
- Boards.Board.PlaceMines: the model requires that `draws` holds at least `numberOfMines` distinct cells other than the first click. With fewer, the Java loop draws for ever, and that case is not modelled.
- **Java exceptions.** Inputs that make the Java throw are preconditions, not error results. These are:
  - an out-of-range click or MOVE, where the array index throws;
  - a null mine list in MINE_POSITIONS on an empty board;
  - an out-of-range mine position.
- Pages.PageReveal: the page's `revealCell` indexes the array before any check, so the model requires an in-range target.
- **UI.** Swing buttons, labels, colours, `updateButtonAppearance`, `updateAllButtons` and status texts are left out. So is the navigation of `exitToMenu` to the home page.
- **Timing.** The turn timer and the timeout handler (`GamePage.java` lines 114-137) are left out.
- **Threads.** The page's work is modelled as one sequential step. This covers:
  - `SwingUtilities.invokeLater`;
  - the half-second delay thread before `sendPlayerJoined`, done inline;
  - the registration of the message handler.
- **Singleton.** `GameState.getInstance` is left out. A `GameState` object is passed to the page instead.
- **Configuration.** `GameConfig` is not part of this model.
- **Debug output.** The `System.out.println` debug output, including the unknown-type branch of `handleMessage`, is left out.
- **One board object.** The page's own `board` field is always `gameState.getBoard()` in the modelled code, so the model keeps one board object, reached through the game state.
- **Constructor placeholder.** Before its `resetGame`, the GameState constructor gets a placeholder board. It stands in for the Java `null`, which `resetGame` replaces at once.
- **Ghost parameters.** The reveal methods take extra ghost parameters: the grid or page state on entry, used for termination and specification.
- GameStates.GameState.SetGameOver: the setter and the other one-field setters state the field they write. Frame clauses give "nothing else changes".
- **GAME_OVER.** The `isFlag` outcome only selects the status text, so its handling does not depend on it.
- **Integer width.** Java `int` overflow is not modelled. Every value is a board index or a count below `size * size`.
