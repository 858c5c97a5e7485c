/** One square of the minefield (model/Cell.java). The Java object has four mutable fields
    changed through setters; here a cell is a value and a setter returns the updated value,
    which the board stores back into its array. */
module Cells {

  datatype Cell = Cell(isMine: bool, isRevealed: bool, isFlagged: bool, adjacentMines: int)
  {
    /** `setMine`: only `isMine` changes. */
    function SetMine(b: bool): (c: Cell)
      ensures c.isMine == b
      ensures c.isRevealed == isRevealed && c.isFlagged == isFlagged && c.adjacentMines == adjacentMines
    {
      this.(isMine := b)
    }

    /** `setRevealed`: only `isRevealed` changes. */
    function SetRevealed(b: bool): (c: Cell)
      ensures c.isRevealed == b
      ensures c.isMine == isMine && c.isFlagged == isFlagged && c.adjacentMines == adjacentMines
    {
      this.(isRevealed := b)
    }

    /** `setFlagged`: only `isFlagged` changes. */
    function SetFlagged(b: bool): (c: Cell)
      ensures c.isFlagged == b
      ensures c.isMine == isMine && c.isRevealed == isRevealed && c.adjacentMines == adjacentMines
    {
      this.(isFlagged := b)
    }

    /** `setAdjacentMines`: only `adjacentMines` changes. */
    function SetAdjacentMines(n: int): (c: Cell)
      ensures c.adjacentMines == n
      ensures c.isMine == isMine && c.isRevealed == isRevealed && c.isFlagged == isFlagged
    {
      this.(adjacentMines := n)
    }
  }

  /** The cell built by `new Cell()`: no mine, hidden, unflagged, no adjacent mines. */
  function NewCell(): (c: Cell)
    ensures !c.isMine && !c.isRevealed && !c.isFlagged && c.adjacentMines == 0
  {
    Cell(false, false, false, 0)
  }

  /** Each getter reads back what the matching setter last stored, whatever was set before. */
  lemma SetThenGet(c: Cell, b: bool, n: int)
    ensures c.SetMine(b).isMine == b && c.SetRevealed(b).isRevealed == b
    ensures c.SetFlagged(b).isFlagged == b && c.SetAdjacentMines(n).adjacentMines == n
    ensures c.SetMine(!b).SetMine(b) == c.SetMine(b)
    ensures c.SetRevealed(!b).SetRevealed(b) == c.SetRevealed(b)
    ensures c.SetFlagged(!b).SetFlagged(b) == c.SetFlagged(b)
  {
  }
}
