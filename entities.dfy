/** The persistent entities of a game and the helpers that keep their
    two-way links in step. Object identity stands for entity equality;
    a list that the entities create lazily on first use is a sequence
    that starts empty. */
module Entities {
  import opened Types

  /** Position of the first occurrence of `x`. */
  function IndexOf<T(==)>(xs: seq<T>, x: T): (i: nat)
    requires x in xs
    ensures i < |xs| && xs[i] == x && x !in xs[..i]
  {
    if xs[0] == x then 0
    else
      var i := IndexOf(xs[1..], x);
      assert xs[1..][..i] == xs[1..i + 1];
      1 + i
  }

  /** Removes the first occurrence of `x` (java.util.List.remove(Object)). */
  function RemoveFirst<T(==)>(xs: seq<T>, x: T): (r: seq<T>)
    ensures x !in xs ==> r == xs
    ensures x in xs ==> |r| == |xs| - 1
  {
    if |xs| == 0 then []
    else if xs[0] == x then xs[1..]
    else [xs[0]] + RemoveFirst(xs[1..], x)
  }

  /** The removal cuts the list at the first occurrence of `x`. */
  lemma {:induction false} RemoveFirstSplits<T>(xs: seq<T>, x: T)
    requires x in xs
    ensures RemoveFirst(xs, x) == xs[..IndexOf(xs, x)] + xs[IndexOf(xs, x) + 1..]
  {
    if xs[0] != x {
      var t := xs[1..];
      var i := IndexOf(t, x);
      assert IndexOf(xs, x) == i + 1;
      RemoveFirstSplits(t, x);
      calc {
        RemoveFirst(xs, x);
        [xs[0]] + RemoveFirst(t, x);
        [xs[0]] + (t[..i] + t[i + 1..]);
        { assert [xs[0]] + t[..i] == xs[..i + 1]; assert t[i + 1..] == xs[i + 2..]; }
        xs[..i + 1] + xs[i + 2..];
      }
    }
  }

  /** Removing an element that is present drops exactly one copy of it. */
  lemma RemoveFirstOneCopy<T>(xs: seq<T>, x: T)
    requires x in xs
    ensures |RemoveFirst(xs, x)| == |xs| - 1
    ensures multiset(RemoveFirst(xs, x)) == multiset(xs) - multiset{x}
  {
    var i := IndexOf(xs, x);
    RemoveFirstSplits(xs, x);
    assert xs == xs[..i] + [x] + xs[i + 1..];
    calc {
      multiset(xs);
      multiset(xs[..i] + [x] + xs[i + 1..]);
      multiset(xs[..i]) + multiset{x} + multiset(xs[i + 1..]);
      multiset(RemoveFirst(xs, x)) + multiset{x};
    }
  }

  /** Appending an element and removing it again gives back the list, when
      the element was not in it before. */
  lemma {:induction false} RemoveFirstAfterAppend<T>(xs: seq<T>, x: T)
    requires x !in xs
    ensures RemoveFirst(xs + [x], x) == xs
  {
    if |xs| != 0 {
      assert (xs + [x])[1..] == xs[1..] + [x];
      RemoveFirstAfterAppend(xs[1..], x);
    }
  }

  /** PlayerEntity: a registered player and the two flags of the join/play cycle. */
  class Player {
    const name: string
    var isLocked: bool
    var isPlaying: bool

    constructor (name: string, isLocked: bool, isPlaying: bool)
      ensures this.name == name && this.isLocked == isLocked && this.isPlaying == isPlaying
    {
      this.name := name;
      this.isLocked := isLocked;
      this.isPlaying := isPlaying;
    }
  }

  /** GameGridEntity: one square of a player's board. */
  class Cell {
    const row: int32
    const col: int32
    var gridValue: GridValue
    var gamePlayer: GamePlayer?
    var gameShip: GameShip?

    constructor (row: int32, col: int32, gridValue: GridValue, gamePlayer: GamePlayer?)
      ensures this.row == row && this.col == col && this.gridValue == gridValue
      ensures this.gamePlayer == gamePlayer && gameShip == null
    {
      this.row := row;
      this.col := col;
      this.gridValue := gridValue;
      this.gamePlayer := gamePlayer;
      gameShip := null;
    }
  }

  /** GameShipEntity: a catalog ship placed on one player's board. */
  class GameShip {
    const ship: ShipTemplate
    var cells: seq<Cell>
    var status: ShipStatus
    var gamePlayer: GamePlayer?

    constructor (ship: ShipTemplate, status: ShipStatus, gamePlayer: GamePlayer?)
      ensures this.ship == ship && this.status == status && this.gamePlayer == gamePlayer && cells == []
    {
      this.ship := ship;
      this.status := status;
      this.gamePlayer := gamePlayer;
      cells := [];
    }

    /** Appends a cell to this ship and points the cell back at the ship. */
    method AddGameShipGrid(cell: Cell)
      modifies this`cells, cell`gameShip
      ensures cells == old(cells) + [cell]
      ensures cell.gameShip == this
    {
      cells := cells + [cell];
      cell.gameShip := this;
    }

    /** Removes one occurrence of the cell; the cell's back-reference is set
        to this ship rather than cleared. */
    method RemoveGameShip(cell: Cell)
      modifies this`cells, cell`gameShip
      ensures cells == RemoveFirst(old(cells), cell)
      ensures cell.gameShip == this
    {
      cells := RemoveFirst(cells, cell);
      cell.gameShip := this;
    }
  }

  /** GamePlayerEntity: one side of one game, with its fleet and its board. */
  class GamePlayer {
    var id: Option<int>
    const player: Player
    var ships: seq<GameShip>
    var board: seq<Cell>

    /** A side for `player` with an empty fleet and an empty board, not yet saved. */
    constructor (player: Player)
      ensures this.player == player && id == None && ships == [] && board == []
    {
      this.player := player;
      id := None;
      ships := [];
      board := [];
    }

    method AddGameShip(ship: GameShip)
      modifies this`ships, ship`gamePlayer
      ensures ships == old(ships) + [ship]
      ensures ship.gamePlayer == this
    {
      ships := ships + [ship];
      ship.gamePlayer := this;
    }

    /** Removes one occurrence; the back-reference is set to this side, not cleared. */
    method RemoveGameShip(ship: GameShip)
      modifies this`ships, ship`gamePlayer
      ensures ships == RemoveFirst(old(ships), ship)
      ensures ship.gamePlayer == this
    {
      ships := RemoveFirst(ships, ship);
      ship.gamePlayer := this;
    }

    method AddGameBoard(cell: Cell)
      modifies this`board, cell`gamePlayer
      ensures board == old(board) + [cell]
      ensures cell.gamePlayer == this
    {
      board := board + [cell];
      cell.gamePlayer := this;
    }

    /** Removes one occurrence; the back-reference is set to this side, not cleared. */
    method RemoveGameBoard(cell: Cell)
      modifies this`board, cell`gamePlayer
      ensures board == RemoveFirst(old(board), cell)
      ensures cell.gamePlayer == this
    {
      board := RemoveFirst(board, cell);
      cell.gamePlayer := this;
    }

    /** Appends the cell to the ship's list only; the cell's own link is left as it was. */
    method MapGameShipToGameGrid(ship: GameShip?, cell: Cell)
      modifies ship
      ensures ship != null ==> ship.cells == old(ship.cells) + [cell]
      ensures ship != null ==> ship.status == old(ship.status) && ship.gamePlayer == old(ship.gamePlayer)
    {
      if ship != null {
        ship.cells := ship.cells + [cell];
      }
    }
  }

  /** GameEntity: two sides, whose turn it is, and the outcome. */
  class Game {
    var id: Option<Uuid>
    const player1: GamePlayer
    const player2: GamePlayer
    var currentPlayer: GamePlayer?
    var winner: GamePlayer?
    var status: GameStatus

    /** A fresh game between two sides: the first side moves first, no
        winner yet, not yet saved. */
    constructor (player1: GamePlayer, player2: GamePlayer)
      ensures this.player1 == player1 && this.player2 == player2
      ensures currentPlayer == player1 && winner == null && status == Ongoing && id == None
    {
      this.player1 := player1;
      this.player2 := player2;
      currentPlayer := player1;
      winner := null;
      status := Ongoing;
      id := None;
    }

    /** The side that is not on turn; null when the turn is held by neither side. */
    function GetOpponent(): (r: GamePlayer?)
      reads this`currentPlayer
      ensures currentPlayer == player1 ==> r == player2
      ensures currentPlayer != player1 && currentPlayer == player2 ==> r == player1
      ensures currentPlayer != player1 && currentPlayer != player2 ==> r == null
    {
      if player1 == currentPlayer then player2
      else if player2 == currentPlayer then player1
      else null
    }
  }

  /** With two distinct sides and one of them on turn, the opponent is the
      other side, and handing the turn to it makes the former side the opponent. */
  lemma OpponentIsOtherSide(g: Game)
    requires g.player1 != g.player2
    requires g.currentPlayer == g.player1 || g.currentPlayer == g.player2
    ensures g.GetOpponent() != null && g.GetOpponent() != g.currentPlayer
    ensures g.GetOpponent() == g.player1 || g.GetOpponent() == g.player2
    ensures g.currentPlayer == g.player1 ==> g.GetOpponent() == g.player2
    ensures g.currentPlayer == g.player2 ==> g.GetOpponent() == g.player1
  {
  }
}
