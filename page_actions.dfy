/** The handlers of ui/pages/GamePage.java over the whole state they touch: the shared
    session of model/GameState.java and the messages the page has sent. The lemmas at the end
    follow one move from the page that makes it to the opponent's page that receives it. */
module PageActions {
  import opened Wrappers
  import opened Minefield
  import opened Messages
  import opened Sessions
  import opened Pages
  import Placement

  /** The session the page shares with the rest of the program and the page's outbox. */
  datatype Page = Page(session: Session, outbox: seq<GameMessage>)
  {
    predicate Valid()
    {
      session.Valid()
    }
  }

  /** The part of the page its reveal code reads and writes. */
  function PlayOf(pg: Page): Play
  {
    Play(pg.session.board.grid, pg.session.isGameOver, pg.outbox)
  }

  /** The page with the reveal code's results written back. */
  function WithPlay(pg: Page, p: Play): Page
  {
    Page(pg.session.(board := pg.session.board.(grid := p.grid), isGameOver := p.over), p.outbox)
  }

  /** The page's `revealCell(x, y)` on the session's board. */
  function RevealAt(pg: Page, x: int, y: int): (r: Page)
    requires pg.Valid() && InRange(pg.session.board.grid, x, y)
    ensures r.Valid() && |r.session.board.grid| == |pg.session.board.grid|
  {
    var p := PageReveal(PlayOf(pg), pg.session.isMultiplayer, x, y);
    PageRevealOnlyReveals(PlayOf(pg), pg.session.isMultiplayer, x, y);
    Placement.RevealedValid(pg.session.board, p.grid);
    WithPlay(pg, p)
  }

  /** The page's `gameOver(won)` on the session. */
  function GameOver(pg: Page, won: bool): (r: Page)
    requires pg.Valid()
    ensures r.Valid()
  {
    var p := EndGame(PlayOf(pg), pg.session.isMultiplayer, won);
    EndGameOnlyReveals(PlayOf(pg), pg.session.isMultiplayer, won, 0, 0);
    Placement.RevealedValid(pg.session.board, p.grid);
    WithPlay(pg, p)
  }

  // ---------------------------------------------------------------------------------------
  // Messages sent
  // ---------------------------------------------------------------------------------------

  function Send(pg: Page, m: GameMessage): Page
  {
    pg.(outbox := pg.outbox + [m])
  }

  /** `sendMove(x, y)` */
  function SendMove(pg: Page, x: int, y: int): Page
  {
    if pg.session.isMultiplayer then Send(pg, WithCoords(MOVE, x, y)) else pg
  }

  /** `sendGameOver(won)` */
  function SendGameOver(pg: Page, won: bool): Page
  {
    pg.(outbox := pg.outbox + GameOverSent(pg.session.isMultiplayer, won))
  }

  /** `sendDisconnect`; stopping the server or client is left to the network layer. */
  function SendDisconnect(pg: Page): Page
  {
    if pg.session.isMultiplayer then Send(pg, TypeOnly(DISCONNECT)) else pg
  }

  /** `sendPlayerJoined` */
  function SendPlayerJoined(pg: Page): Page
  {
    if pg.session.isMultiplayer then Send(pg, WithName(PLAYER_JOINED, pg.session.playerName)) else pg
  }

  /** The MINE_POSITIONS message for a board. */
  function MinePositionsMessage(g: Grid): GameMessage
    requires IsGrid(g)
  {
    WithPositions(MINE_POSITIONS, Some(MinePositions(g)))
  }

  /** `sendMinePositions`: always sent; its caller checks for multiplayer mode. */
  function SendMinePositions(pg: Page): Page
    requires pg.Valid()
  {
    Send(pg, MinePositionsMessage(pg.session.board.grid))
  }

  /** `sendResetRequest`: tell the opponent, then reset locally. */
  function SendResetRequest(pg: Page): Page
  {
    Page(ResetGame(pg.session), pg.outbox + [TypeOnly(RESET_REQUEST)])
  }

  /** The page's `resetGame` (the New Game button). */
  function ResetPage(pg: Page): Page
  {
    if pg.session.isMultiplayer then SendResetRequest(pg) else pg.(session := ResetGame(pg.session))
  }

  /** `exitToMenu`, up to the navigation. */
  function ExitToMenu(pg: Page): Page
  {
    if pg.session.isMultiplayer then SendDisconnect(pg) else pg
  }

  /** The multiplayer set-up of the page's constructor: the host moves first, and the page
      announces its player's name. */
  function OpenPage(pg: Page): Page
  {
    if pg.session.isMultiplayer then SendPlayerJoined(pg.(session := SetPlayerTurn(pg.session, pg.session.isHost)))
    else pg
  }

  // ---------------------------------------------------------------------------------------
  // The left click
  // ---------------------------------------------------------------------------------------

  /** The host's first click places the mines around it and, in multiplayer mode, sends their
      positions. */
  function Prepared(pg: Page, x: int, y: int, draws: seq<Pos>): (r: Page)
    requires pg.Valid()
    ensures r.Valid() && |r.session.board.grid| == |pg.session.board.grid|
  {
    if pg.session.isHost && !pg.session.board.minesPlaced then
      var b := PlaceMines(pg.session.board, Pos(x, y), draws);
      Placement.PlaceMinesOnce(pg.session.board, Pos(x, y), draws, Pos(x, y), draws);
      var pg' := pg.(session := pg.session.(board := b));
      if pg.session.isMultiplayer then SendMinePositions(pg') else pg'
    else pg
  }

  /** After the reveal, a multiplayer move that did not end the game is sent and the turn
      passes. */
  function MoveMade(pg: Page, x: int, y: int): Page
  {
    if pg.session.isMultiplayer && !pg.session.isGameOver then
      var pg' := SendMove(pg, x, y);
      pg'.(session := TogglePlayerTurn(pg'.session))
    else pg
  }

  /** `handleLeftClick(x, y)`; `draws` stands for the random cells `placeMines` would draw. */
  function HandleLeftClick(pg: Page, x: int, y: int, draws: seq<Pos>): (r: Page)
    requires pg.Valid() && InRange(pg.session.board.grid, x, y)
    ensures r.Valid()
  {
    if pg.session.board.grid[x][y].isRevealed || !pg.session.isPlayerTurn then pg
    else MoveMade(RevealAt(Prepared(pg, x, y, draws), x, y), x, y)
  }

  // ---------------------------------------------------------------------------------------
  // Incoming messages
  // ---------------------------------------------------------------------------------------

  /** What `handleMessage` needs of a message not to throw: a mine list when the board is
      empty, and coordinates on the board for a move it will play. */
  predicate Readable(pg: Page, m: GameMessage)
    requires pg.Valid()
  {
    (m.msgType == MINE_POSITIONS && !pg.session.board.minesPlaced ==>
      m.minePositions.Some? && PositionsInRange(pg.session.board.grid, m.minePositions.value))
    && (m.msgType == MOVE && !pg.session.isGameOver && (!pg.session.isHost || !pg.session.isPlayerTurn) ==>
      InRange(pg.session.board.grid, m.x, m.y))
  }

  /** `handleMessage(m)` */
  function HandleMessage(pg: Page, m: GameMessage): (r: Page)
    requires pg.Valid() && Readable(pg, m)
    ensures r.Valid()
  {
    var s := pg.session;
    match m.msgType
    case MINE_POSITIONS =>
      if !s.board.minesPlaced then
        Placement.PlaceFromPositionsOnce(s.board, m.minePositions.value, []);
        pg.(session := s.(board := PlaceMinesFromPositions(s.board, m.minePositions.value)))
      else pg
    case MOVE =>
      if !s.isGameOver && (!s.isHost || !s.isPlayerTurn) then
        var r := RevealAt(pg, m.x, m.y);
        r.(session := TogglePlayerTurn(r.session))
      else pg
    case RESET_REQUEST =>
      pg.(session := ResetGame(s))
    case PLAYER_JOINED =>
      var pg' := pg.(session := s.(opponentName := m.playerName));
      if s.isHost then Send(pg', WithName(PLAYER_JOINED, s.playerName)) else pg'
    case GAME_OVER =>
      Placement.RevealedValid(s.board, RevealMines(s.board.grid));
      pg.(session := s.(isGameOver := true, board := s.board.(grid := RevealMines(s.board.grid))))
    case DISCONNECT =>
      pg
  }

  // ---------------------------------------------------------------------------------------
  // Properties of one page
  // ---------------------------------------------------------------------------------------

  /** A click acts only on a hidden cell and only on the player's turn. */
  lemma ClickGuard(pg: Page, x: int, y: int, draws: seq<Pos>)
    requires pg.Valid() && InRange(pg.session.board.grid, x, y)
    requires pg.session.board.grid[x][y].isRevealed || !pg.session.isPlayerTurn
    ensures HandleLeftClick(pg, x, y, draws) == pg
  {
  }

  /** The mine list of a board names cells of any board of its size. */
  lemma MineListInRange(g: Grid, h: Grid)
    requires IsGrid(g) && IsGrid(h) && |h| == |g|
    ensures PositionsInRange(h, MinePositions(g))
  {
    Placement.MinePositionsExact(g);
    Placement.MineSetInRange(g);
    forall k | 0 <= k < |MinePositions(g)| ensures InRange(h, MinePositions(g)[k].x, MinePositions(g)[k].y) {
      assert MinePositions(g)[k] in MineSet(g);
    }
  }

  /** The placement step keeps the rest of the session and sends at most the mine list. */
  lemma PreparedFacts(pg: Page, x: int, y: int, draws: seq<Pos>)
    requires pg.Valid()
    ensures var q := Prepared(pg, x, y, draws);
      q.session.(board := pg.session.board) == pg.session
      && q.outbox == pg.outbox + (if pg.session.isHost && !pg.session.board.minesPlaced && pg.session.isMultiplayer
        then [MinePositionsMessage(q.session.board.grid)] else [])
      && (pg.session.isHost && !pg.session.board.minesPlaced ==> q.session.board == PlaceMines(pg.session.board, Pos(x, y), draws))
  {
  }

  /** The reveal step only reveals, ends the game as `Ends` says, and keeps the rest of the
      session. */
  lemma RevealAtFacts(pg: Page, x: int, y: int)
    requires pg.Valid() && InRange(pg.session.board.grid, x, y)
    ensures var q := RevealAt(pg, x, y);
      q.session.(board := pg.session.board, isGameOver := pg.session.isGameOver) == pg.session
      && q.session.board.(grid := pg.session.board.grid) == pg.session.board
      && OnlyRevealed(pg.session.board.grid, q.session.board.grid)
      && Ends(PlayOf(pg), PlayOf(q), pg.session.isMultiplayer)
  {
    PageRevealOnlyReveals(PlayOf(pg), pg.session.isMultiplayer, x, y);
    PageRevealEnds(PlayOf(pg), pg.session.isMultiplayer, x, y);
  }

  /** The last step sends the move and passes the turn exactly when the multiplayer game goes
      on. */
  lemma MoveMadeFacts(q: Page, x: int, y: int)
    ensures var r := MoveMade(q, x, y);
      var goesOn := q.session.isMultiplayer && !q.session.isGameOver;
      r.session == q.session.(isPlayerTurn := if goesOn then !q.session.isPlayerTurn else q.session.isPlayerTurn)
      && r.outbox == q.outbox + (if goesOn then [WithCoords(MOVE, x, y)] else [])
  {
  }

  /** The host's first click: the mines are placed, as many as the board asks for, never on
      the clicked cell, which is therefore safe; in multiplayer mode the first message sent
      lists those mines, and they are the mines of the board after the click. */
  lemma FirstClickSafe(pg: Page, x: int, y: int, draws: seq<Pos>)
    requires pg.Valid() && InRange(pg.session.board.grid, x, y)
    requires pg.session.isHost && !pg.session.board.minesPlaced
    requires !pg.session.board.grid[x][y].isRevealed && pg.session.isPlayerTurn
    requires EnoughDraws(pg.session.board, Pos(x, y), draws)
    ensures var r := HandleLeftClick(pg, x, y, draws);
      var b := PlaceMines(pg.session.board, Pos(x, y), draws);
      r.session.board.minesPlaced
      && !r.session.board.grid[x][y].isMine
      && MineSet(r.session.board.grid) == MineSet(b.grid)
      && |MineSet(r.session.board.grid)| == (if pg.session.board.numberOfMines < 0 then 0 else pg.session.board.numberOfMines)
      && (pg.session.isMultiplayer ==>
        |r.outbox| > |pg.outbox| && r.outbox[|pg.outbox|] == MinePositionsMessage(b.grid))
  {
    var b := PlaceMines(pg.session.board, Pos(x, y), draws);
    Placement.PlaceMinesOutcome(pg.session.board, Pos(x, y), draws);
    var q := Prepared(pg, x, y, draws);
    PreparedFacts(pg, x, y, draws);
    var q' := RevealAt(q, x, y);
    RevealAtFacts(q, x, y);
    MoveMadeFacts(q', x, y);
    Placement.RevealedSameMines(b.grid, q'.session.board.grid);
    assert Pos(x, y) !in MineSet(q'.session.board.grid);
  }

  /** What a click that acts sends and does to the turn: in multiplayer mode, a click that
      leaves the game running sends the mine list if it placed the mines, then its move, and
      passes the turn; a click that ends the game sends no move and keeps the turn; in
      single-player mode nothing is sent. Messages sent earlier are kept. */
  lemma ClickMessages(pg: Page, x: int, y: int, draws: seq<Pos>)
    requires pg.Valid() && InRange(pg.session.board.grid, x, y)
    requires !pg.session.board.grid[x][y].isRevealed && pg.session.isPlayerTurn
    ensures var r := HandleLeftClick(pg, x, y, draws);
      |r.outbox| >= |pg.outbox| && r.outbox[..|pg.outbox|] == pg.outbox
      && (!pg.session.isMultiplayer ==> r.outbox == pg.outbox && r.session.isPlayerTurn)
      && (pg.session.isMultiplayer && !r.session.isGameOver ==>
        r.outbox == pg.outbox
          + (if pg.session.isHost && !pg.session.board.minesPlaced then [MinePositionsMessage(r.session.board.grid)] else [])
          + [WithCoords(MOVE, x, y)]
        && !r.session.isPlayerTurn)
      && (r.session.isGameOver ==>
        r.session.isPlayerTurn && forall k :: |pg.outbox| <= k < |r.outbox| ==> r.outbox[k].msgType != MOVE)
  {
    var q := Prepared(pg, x, y, draws);
    PreparedFacts(pg, x, y, draws);
    var q' := RevealAt(q, x, y);
    RevealAtFacts(q, x, y);
    MoveMadeFacts(q', x, y);
    Placement.MineListSameMines(q.session.board.grid, q'.session.board.grid);
    ClickChain(pg, q, q', MoveMade(q', x, y), x, y, pg.session.isHost && !pg.session.board.minesPlaced);
  }

  /** The three steps of a click put together, over their facts alone. */
  lemma ClickChain(pg: Page, q: Page, q': Page, r: Page, x: int, y: int, first: bool)
    requires q.Valid() && q'.Valid() && r.Valid()
    requires q.session.(board := pg.session.board) == pg.session && pg.session.isPlayerTurn
    requires q.outbox == pg.outbox + (if first && pg.session.isMultiplayer then [MinePositionsMessage(q.session.board.grid)] else [])
    requires q'.session.(board := q.session.board, isGameOver := q.session.isGameOver) == q.session
    requires Ends(PlayOf(q), PlayOf(q'), q.session.isMultiplayer)
    requires MinePositions(q'.session.board.grid) == MinePositions(q.session.board.grid)
    requires var goesOn := q'.session.isMultiplayer && !q'.session.isGameOver;
      r.session == q'.session.(isPlayerTurn := if goesOn then !q'.session.isPlayerTurn else q'.session.isPlayerTurn)
      && r.outbox == q'.outbox + (if goesOn then [WithCoords(MOVE, x, y)] else [])
    ensures |r.outbox| >= |pg.outbox| && r.outbox[..|pg.outbox|] == pg.outbox
    ensures !pg.session.isMultiplayer ==> r.outbox == pg.outbox && r.session.isPlayerTurn
    ensures pg.session.isMultiplayer && !r.session.isGameOver ==>
      r.outbox == pg.outbox + (if first then [MinePositionsMessage(r.session.board.grid)] else []) + [WithCoords(MOVE, x, y)]
      && !r.session.isPlayerTurn
    ensures r.session.isGameOver ==>
      r.session.isPlayerTurn && forall k :: |pg.outbox| <= k < |r.outbox| ==> r.outbox[k].msgType != MOVE
  {
    assert MinePositionsMessage(r.session.board.grid) == MinePositionsMessage(q.session.board.grid);
    assert q.outbox[..|pg.outbox|] == pg.outbox;
    assert q'.outbox[..|q.outbox|] == q.outbox;
  }

  /** A click on a mine (once the mines are down) ends the game as lost: the turn stays, and
      in multiplayer mode exactly one GAME_OVER(false) message goes out. */
  lemma ClickOnMine(pg: Page, x: int, y: int, draws: seq<Pos>)
    requires pg.Valid() && InRange(pg.session.board.grid, x, y)
    requires !pg.session.board.grid[x][y].isRevealed && pg.session.isPlayerTurn
    requires !(pg.session.isHost && !pg.session.board.minesPlaced)
    requires pg.session.board.grid[x][y].isMine && !pg.session.isGameOver
    ensures var r := HandleLeftClick(pg, x, y, draws);
      r == GameOver(pg, false)
      && r.session.isGameOver && r.session.isPlayerTurn
      && r.outbox == pg.outbox + GameOverSent(pg.session.isMultiplayer, false)
  {
  }

  /** A MINE_POSITIONS message is taken only by an empty board, which then holds exactly the
      listed mines; a second list changes nothing. */
  lemma MinePositionsHandled(pg: Page, m: GameMessage)
    requires pg.Valid() && Readable(pg, m) && m.msgType == MINE_POSITIONS
    ensures var r := HandleMessage(pg, m);
      r.outbox == pg.outbox
      && (pg.session.board.minesPlaced ==> r == pg)
      && (!pg.session.board.minesPlaced ==>
        r.session == pg.session.(board := PlaceMinesFromPositions(pg.session.board, m.minePositions.value))
        && r.session.board.minesPlaced
        && forall p {:trigger p in MineSet(r.session.board.grid)} ::
          p in MineSet(r.session.board.grid) <==> p in m.minePositions.value)
  {
    if !pg.session.board.minesPlaced {
      Placement.PlaceFromPositionsOutcome(pg.session.board, m.minePositions.value);
    }
  }

  /** A MOVE is ignored once the game is over, and by a host whose turn it is; otherwise the
      page plays it with its own reveal and passes the turn. */
  lemma MoveHandled(pg: Page, m: GameMessage)
    requires pg.Valid() && Readable(pg, m) && m.msgType == MOVE
    ensures var r := HandleMessage(pg, m);
      (pg.session.isGameOver || (pg.session.isHost && pg.session.isPlayerTurn) ==> r == pg)
      && (!pg.session.isGameOver && (!pg.session.isHost || !pg.session.isPlayerTurn) ==>
        r.session.isPlayerTurn == !pg.session.isPlayerTurn
        && PlayOf(r) == PageReveal(PlayOf(pg), pg.session.isMultiplayer, m.x, m.y))
  {
  }

  /** The MOVE branch as the page's code runs it: the reveal, then the turn passes. */
  lemma MovePlayed(pg: Page, m: GameMessage)
    requires pg.Valid() && Readable(pg, m) && m.msgType == MOVE
    ensures var r := HandleMessage(pg, m);
      if !pg.session.isGameOver && (!pg.session.isHost || !pg.session.isPlayerTurn) then
        var q := RevealAt(pg, m.x, m.y);
        r == q.(session := q.session.(isPlayerTurn := !q.session.isPlayerTurn))
      else r == pg
  {
  }

  /** GAME_OVER ends the game with the mines shown, sends nothing back and leaves the turn. */
  lemma GameOverHandled(pg: Page, m: GameMessage)
    requires pg.Valid() && Readable(pg, m) && m.msgType == GAME_OVER
    ensures var r := HandleMessage(pg, m);
      r.session.isGameOver && MinesShown(r.session.board.grid) && OnlyRevealed(pg.session.board.grid, r.session.board.grid)
      && r.outbox == pg.outbox && r.session.isPlayerTurn == pg.session.isPlayerTurn
  {
  }

  /** RESET_REQUEST resets the session and sends nothing; DISCONNECT changes nothing. */
  lemma ResetAndDisconnectHandled(pg: Page, m: GameMessage)
    requires pg.Valid() && Readable(pg, m)
    ensures m.msgType == RESET_REQUEST ==> HandleMessage(pg, m) == pg.(session := ResetGame(pg.session))
    ensures m.msgType == DISCONNECT ==> HandleMessage(pg, m) == pg
  {
  }

  /** PLAYER_JOINED records the opponent's name; a host answers with its own name, once. */
  lemma PlayerJoinedHandled(pg: Page, m: GameMessage)
    requires pg.Valid() && Readable(pg, m) && m.msgType == PLAYER_JOINED
    ensures var r := HandleMessage(pg, m);
      r.session == pg.session.(opponentName := m.playerName)
      && r.outbox == pg.outbox + (if pg.session.isHost then [WithName(PLAYER_JOINED, pg.session.playerName)] else [])
  {
  }

  // ---------------------------------------------------------------------------------------
  // Two pages in step
  // ---------------------------------------------------------------------------------------

  /** Two pages of one multiplayer game, `a` to move and `b` waiting, on the same board. */
  predicate InStep(a: Page, b: Page)
  {
    a.Valid() && b.Valid()
    && a.session.isMultiplayer && b.session.isMultiplayer && a.session.isHost != b.session.isHost
    && a.session.board == b.session.board
    && !a.session.isGameOver && !b.session.isGameOver
    && a.session.isPlayerTurn && !b.session.isPlayerTurn
  }

  /** Two pages with the same board and game-over flag reveal alike, whatever they have sent. */
  lemma RevealAtIgnoresOutbox(a: Page, b: Page, x: int, y: int)
    requires a.Valid() && b.Valid() && InRange(a.session.board.grid, x, y)
    requires a.session.board == b.session.board && a.session.isGameOver == b.session.isGameOver
    requires a.session.isMultiplayer == b.session.isMultiplayer
    ensures RevealAt(a, x, y).session.board == RevealAt(b, x, y).session.board
    ensures RevealAt(a, x, y).session.isGameOver == RevealAt(b, x, y).session.isGameOver
  {
    PageRevealIgnoresOutbox(a.session.board.grid, a.session.isGameOver, a.outbox, b.outbox, a.session.isMultiplayer, x, y);
  }

  /** A move that does not end the game, made on one page once the mines are down and played
      by the other page from the MOVE message, leaves both on the same board with the turn
      passed from the first to the second, and nothing sent back. */
  lemma MoveInStep(a: Page, b: Page, x: int, y: int, draws: seq<Pos>)
    requires InStep(a, b) && a.session.board.minesPlaced
    requires InRange(a.session.board.grid, x, y) && !a.session.board.grid[x][y].isRevealed
    requires !HandleLeftClick(a, x, y, draws).session.isGameOver
    ensures Readable(b, WithCoords(MOVE, x, y))
    ensures var a' := HandleLeftClick(a, x, y, draws);
      var b' := HandleMessage(b, WithCoords(MOVE, x, y));
      a'.outbox == a.outbox + [WithCoords(MOVE, x, y)] && b'.outbox == b.outbox
      && b'.session.board == a'.session.board && !b'.session.isGameOver
      && !a'.session.isPlayerTurn && b'.session.isPlayerTurn
  {
    Played(a, b, x, y);
  }

  /** The common end of both moves: `a1` reveals and sends its move, `b1` plays it. */
  lemma Played(a1: Page, b1: Page, x: int, y: int)
    requires InStep(a1, b1) && InRange(a1.session.board.grid, x, y)
    requires !MoveMade(RevealAt(a1, x, y), x, y).session.isGameOver
    ensures Readable(b1, WithCoords(MOVE, x, y))
    ensures var a' := MoveMade(RevealAt(a1, x, y), x, y);
      var b' := HandleMessage(b1, WithCoords(MOVE, x, y));
      a'.outbox == a1.outbox + [WithCoords(MOVE, x, y)] && b'.outbox == b1.outbox
      && b'.session.board == a'.session.board && !b'.session.isGameOver
      && !a'.session.isPlayerTurn && b'.session.isPlayerTurn
  {
    var a2 := RevealAt(a1, x, y);
    var b2 := RevealAt(b1, x, y);
    RevealAtFacts(a1, x, y);
    RevealAtFacts(b1, x, y);
    RevealAtIgnoresOutbox(a1, b1, x, y);
    MoveMadeFacts(a2, x, y);
    assert HandleMessage(b1, WithCoords(MOVE, x, y)) == b2.(session := TogglePlayerTurn(b2.session));
  }

  /** The host's first move: the client takes the MINE_POSITIONS message onto its empty board,
      which becomes the host's board (mines and counts), and then plays the MOVE; if the move
      does not end the game, both pages end on the same board with the turn passed. */
  lemma FirstMoveInStep(h: Page, c: Page, x: int, y: int, draws: seq<Pos>)
    requires InStep(h, c) && h.session.isHost && !h.session.board.minesPlaced
    requires InRange(h.session.board.grid, x, y) && !h.session.board.grid[x][y].isRevealed
    requires !HandleLeftClick(h, x, y, draws).session.isGameOver
    ensures var b := PlaceMines(h.session.board, Pos(x, y), draws);
      var positions := MinePositionsMessage(b.grid);
      Readable(c, positions)
      && HandleMessage(c, positions).session.board == b
      && Readable(HandleMessage(c, positions), WithCoords(MOVE, x, y))
      && var h' := HandleLeftClick(h, x, y, draws);
        var c' := HandleMessage(HandleMessage(c, positions), WithCoords(MOVE, x, y));
        h'.outbox == h.outbox + [positions, WithCoords(MOVE, x, y)] && c'.outbox == c.outbox
        && c'.session.board == h'.session.board && !c'.session.isGameOver
        && !h'.session.isPlayerTurn && c'.session.isPlayerTurn
  {
    var b := PlaceMines(h.session.board, Pos(x, y), draws);
    Placement.PlaceMinesOnce(h.session.board, Pos(x, y), draws, Pos(x, y), draws);
    var positions := MinePositionsMessage(b.grid);
    MineListInRange(b.grid, c.session.board.grid);
    Placement.MineListRoundTrip(h.session.board, Pos(x, y), draws);
    var c1 := HandleMessage(c, positions);
    assert c1 == c.(session := c.session.(board := b));
    var h1 := Prepared(h, x, y, draws);
    PreparedFacts(h, x, y, draws);
    Played(h1, c1, x, y);
  }

  /** A move that ends the game reaches the other page as its last message, GAME_OVER, which
      ends the game there too; no MOVE is sent. */
  lemma EndInStep(a: Page, b: Page, x: int, y: int, draws: seq<Pos>)
    requires InStep(a, b) && a.session.board.minesPlaced
    requires InRange(a.session.board.grid, x, y) && !a.session.board.grid[x][y].isRevealed
    requires HandleLeftClick(a, x, y, draws).session.isGameOver
    ensures var a' := HandleLeftClick(a, x, y, draws);
      |a'.outbox| == |a.outbox| + 1 && a'.outbox[|a.outbox|].msgType == GAME_OVER
      && Readable(b, a'.outbox[|a.outbox|])
      && HandleMessage(b, a'.outbox[|a.outbox|]).session.isGameOver
  {
    PageRevealEnds(PlayOf(a), true, x, y);
  }

  /** A reset asked for on one page and received on the other leaves both with a fresh board
      and the game running, the host to move and the client waiting. */
  lemma ResetInStep(a: Page, b: Page)
    requires a.Valid() && b.Valid() && a.session.isMultiplayer && a.session.isHost != b.session.isHost
    ensures var a' := ResetPage(a);
      var b' := HandleMessage(b, TypeOnly(RESET_REQUEST));
      a'.outbox == a.outbox + [TypeOnly(RESET_REQUEST)] && b'.outbox == b.outbox
      && a'.session.board == b'.session.board == DefaultMinefield()
      && !a'.session.isGameOver && !b'.session.isGameOver
      && a'.session.isPlayerTurn == a.session.isHost && b'.session.isPlayerTurn == b.session.isHost
      && a'.session.isPlayerTurn != b'.session.isPlayerTurn
  {
  }
}
