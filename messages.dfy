/** The immutable message record of network/GameMessage.java: a type tag and the payload
    fields, each constructor filling the fields it does not take with the defaults
    -1 / -1 / false / null. */
module Messages {
  import opened Wrappers
  import opened Minefield

  /** `GameMessage.MessageType` */
  datatype MessageType = MOVE | GAME_OVER | DISCONNECT | RESET_REQUEST | PLAYER_JOINED | MINE_POSITIONS

  /** The six final fields; `None` stands for a Java `null`. The getters `getType`, `getX`,
      `getY`, `isFlag`, `getPlayerName` and `getMinePositions` are the field selectors. */
  datatype GameMessage = GameMessage(
    msgType: MessageType,
    x: int,
    y: int,
    isFlag: bool,
    playerName: Option<string>,
    minePositions: Option<seq<Pos>>)

  /** `new GameMessage(type)` */
  function TypeOnly(t: MessageType): (m: GameMessage)
    ensures m.msgType == t && m.x == -1 && m.y == -1 && !m.isFlag
    ensures m.playerName == None && m.minePositions == None
  {
    GameMessage(t, -1, -1, false, None, None)
  }

  /** `new GameMessage(type, x, y)` */
  function WithCoords(t: MessageType, x: int, y: int): (m: GameMessage)
    ensures m.msgType == t && m.x == x && m.y == y && !m.isFlag
    ensures m.playerName == None && m.minePositions == None
  {
    GameMessage(t, x, y, false, None, None)
  }

  /** `new GameMessage(type, x, y, isFlag)` */
  function WithMove(t: MessageType, x: int, y: int, isFlag: bool): (m: GameMessage)
    ensures m.msgType == t && m.x == x && m.y == y && m.isFlag == isFlag
    ensures m.playerName == None && m.minePositions == None
  {
    GameMessage(t, x, y, isFlag, None, None)
  }

  /** `new GameMessage(type, playerName)`; the name may itself be null. */
  function WithName(t: MessageType, playerName: Option<string>): (m: GameMessage)
    ensures m.msgType == t && m.x == -1 && m.y == -1 && !m.isFlag
    ensures m.playerName == playerName && m.minePositions == None
  {
    GameMessage(t, -1, -1, false, playerName, None)
  }

  /** `new GameMessage(type, minePositions)`; the list may itself be null. */
  function WithPositions(t: MessageType, minePositions: Option<seq<Pos>>): (m: GameMessage)
    ensures m.msgType == t && m.x == -1 && m.y == -1 && !m.isFlag
    ensures m.playerName == None && m.minePositions == minePositions
  {
    GameMessage(t, -1, -1, false, None, minePositions)
  }

  /** The constructors are one family: the type-only message is the coordinate message at
      (-1, -1), which is the move message without a flag; the name and positions messages
      with a null payload are the type-only message. Messages built from different payloads
      differ, so a receiver can read back what was sent. */
  lemma ConstructorsAgree(t: MessageType, x: int, y: int, b: bool, n: Option<string>, n': Option<string>)
    ensures TypeOnly(t) == WithCoords(t, -1, -1) == WithName(t, None) == WithPositions(t, None)
    ensures WithCoords(t, x, y) == WithMove(t, x, y, false)
    ensures WithName(t, n) == WithName(t, n') <==> n == n'
    ensures WithMove(t, x, y, b).isFlag == b
  {
  }
}
