/**
 * The player token (src/Player.java): a mutable (x, y) position. The token itself checks
 * nothing; keeping it on the board is the game session's job.
 */
module Players {
  class Player {
    var x: int
    var y: int

    /** new Player(x, y): the token stands exactly where it is put. */
    constructor (x: int, y: int)
      ensures GetX() == x && GetY() == y
    {
      this.x := x;
      this.y := y;
    }

    /** getX(): the current horizontal coordinate. */
    function GetX(): int
      reads this
    {
      x
    }

    /** getY(): the current vertical coordinate. */
    function GetY(): int
      reads this
    {
      y
    }

    /**
     * move(x, y): both coordinates become the arguments, with no bounds check. The new state does
     * not depend on the old one, so moving to the same place twice is the same as moving once.
     */
    method Move(x: int, y: int)
      modifies this
      ensures GetX() == x && GetY() == y
    {
      this.x := x;
      this.y := y;
    }
  }
}
