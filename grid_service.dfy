/** GameGridService: building a side's 10x10 board with its links to the
    fleet, and one attack on one cell of the opponent's board. */
module Board {
  import opened Types
  import opened Entities
  import opened Ships

  // ---- building the board ----

  /** The coordinate of the k-th cell in row-major order. */
  function GridLocation(k: int): (l: Location)
    requires 0 <= k < GRID_VALUE * GRID_VALUE
    ensures 0 <= l.row as int < GRID_VALUE && 0 <= l.col as int < GRID_VALUE
    ensures k == l.row as int * GRID_VALUE + l.col as int
  {
    Location((k / GRID_VALUE) as int32, (k % GRID_VALUE) as int32)
  }

  /** The first ship of the fleet built from the catalog entry with the id. */
  function FirstWithTemplate(ships: seq<GameShip>, shipId: int): (r: GameShip?)
    ensures r != null ==> r in ships && r.ship.shipId == shipId
    ensures r == null <==> forall s :: s in ships ==> s.ship.shipId != shipId
  {
    if |ships| == 0 then null
    else if ships[0].ship.shipId == shipId then ships[0]
    else FirstWithTemplate(ships[1..], shipId)
  }

  /** The lookup picks the earliest ship of the id: two fleet ships built from
      the same catalog entry share one set of board links. */
  lemma {:induction false} FirstWithTemplateIsFirst(ships: seq<GameShip>, shipId: int, i: int)
    requires 0 <= i < |ships| && ships[i].ship.shipId == shipId
    requires forall j :: 0 <= j < i ==> ships[j].ship.shipId != shipId
    ensures FirstWithTemplate(ships, shipId) == ships[i]
  {
    if i > 0 {
      assert ships[1..][i - 1] == ships[i];
      FirstWithTemplateIsFirst(ships[1..], shipId, i - 1);
    }
  }

  /** The link one ship request contributes to the cell at `loc`: the request
      lists `loc` and the fleet has a ship of the request's catalog id. */
  function LinkOf(request: ShipRequest, ships: seq<GameShip>, loc: Location): seq<GameShip>
  {
    var s := FirstWithTemplate(ships, request.shipId);
    if loc in request.locations && s != null then [s] else []
  }

  /** The links of the cell at `loc`, one per request, in request order. */
  function Links(requests: seq<ShipRequest>, ships: seq<GameShip>, loc: Location): seq<GameShip>
    decreases |requests|
  {
    if |requests| == 0 then []
    else Links(requests[..|requests| - 1], ships, loc) + LinkOf(requests[|requests| - 1], ships, loc)
  }

  lemma LinksStep(requests: seq<ShipRequest>, i: int, ships: seq<GameShip>, loc: Location)
    requires 0 <= i < |requests|
    ensures Links(requests[..i + 1], ships, loc) == Links(requests[..i], ships, loc) + LinkOf(requests[i], ships, loc)
  {
    assert requests[..i + 1][..i] == requests[..i];
  }

  /** Every link points at a ship of the fleet. */
  lemma {:induction false} LinksInFleet(requests: seq<ShipRequest>, ships: seq<GameShip>, loc: Location)
    ensures forall x :: x in Links(requests, ships, loc) ==> x in ships
    decreases |requests|
  {
    if |requests| > 0 {
      LinksInFleet(requests[..|requests| - 1], ships, loc);
    }
  }

  /** A cell ends up pointing at the ship of its last link, or at none. */
  function LastLink(links: seq<GameShip>): (r: GameShip?)
    ensures r == null <==> |links| == 0
    ensures r != null ==> r in links
  {
    if |links| == 0 then null else links[|links| - 1]
  }

  /** The copies of cell `c` the requests append to ship `s`: one for each
      request that links the cell at `loc` to `s`. */
  function CellsFor(s: GameShip, c: Cell, requests: seq<ShipRequest>, ships: seq<GameShip>, loc: Location): (r: seq<Cell>)
    ensures forall x :: x in r ==> x == c
    decreases |requests|
  {
    if |requests| == 0 then []
    else
      var n := |requests| - 1;
      CellsFor(s, c, requests[..n], ships, loc) + (if s in LinkOf(requests[n], ships, loc) then [c] else [])
  }

  /** What building the board appends to ship `s`'s cell list: the new cells
      in board order, each once per request that links it to `s`. */
  function Appended(s: GameShip, cells: seq<Cell>, requests: seq<ShipRequest>, ships: seq<GameShip>): seq<Cell>
    requires |cells| <= GRID_VALUE * GRID_VALUE
    decreases |cells|
  {
    if |cells| == 0 then []
    else
      var k := |cells| - 1;
      Appended(s, cells[..k], requests, ships) + CellsFor(s, cells[k], requests, ships, GridLocation(k))
  }

  /** The cell of a fresh board at position `k`: coordinate, value and owner. */
  ghost predicate FreshCellAt(c: Cell, k: int, gamePlayer: GamePlayer)
    requires 0 <= k < GRID_VALUE * GRID_VALUE
    reads c
  {
    c.row == GridLocation(k).row && c.col == GridLocation(k).col &&
    c.gridValue == NotAttacked && c.gamePlayer == gamePlayer
  }

  /** The new cells of a board built so far, cell `k` at coordinate `k`. */
  ghost predicate CellsBuilt(cells: seq<Cell>, gamePlayer: GamePlayer, requests: seq<ShipRequest>, ships: seq<GameShip>)
    reads cells
  {
    |cells| <= GRID_VALUE * GRID_VALUE &&
    forall k :: 0 <= k < |cells| ==>
      FreshCellAt(cells[k], k, gamePlayer) && cells[k].gameShip == LastLink(Links(requests, ships, GridLocation(k)))
  }

  /** The innermost loop of populateGameBoard for one request: the first
      listed coordinate equal to the cell's links the cell to the first fleet
      ship of the request's id, if there is one; the search then stops. */
  method LinkRequest(cell: Cell, request: ShipRequest, ships: seq<GameShip>)
    modifies cell`gameShip, set s | s in ships
    ensures var link := LinkOf(request, ships, Location(cell.row, cell.col));
      && (link == [] ==> cell.gameShip == old(cell.gameShip))
      && (link != [] ==> cell.gameShip == link[0])
      && (forall s :: s in ships ==> s.cells == old(s.cells) + (if s in link then [cell] else []))
    ensures forall s :: s in ships ==> s.status == old(s.status) && s.gamePlayer == old(s.gamePlayer)
  {
    var loc := Location(cell.row, cell.col);
    var locs := request.locations;
    for j := 0 to |locs|
      invariant loc !in locs[..j]
      invariant cell.gameShip == old(cell.gameShip)
      invariant forall s :: s in ships ==> unchanged(s)
    {
      if cell.row == locs[j].row && cell.col == locs[j].col {
        var found := FirstWithTemplate(ships, request.shipId);
        if found != null {
          cell.gameShip := found;
          found.AddGameShipGrid(cell);
        }
        break;
      }
    }
    assert locs[..|locs|] == locs;
  }

  /** The two inner loops of populateGameBoard for one new cell: every request
      that lists the cell links it to the first fleet ship of the request's id. */
  method LinkCell(cell: Cell, shipsInfo: seq<ShipRequest>, gamePlayer: GamePlayer)
    modifies cell`gameShip, set s | s in gamePlayer.ships
    requires cell.gameShip == null
    ensures cell.gameShip == LastLink(Links(shipsInfo, gamePlayer.ships, Location(cell.row, cell.col)))
    ensures forall s :: s in gamePlayer.ships ==>
      s.cells == old(s.cells) + CellsFor(s, cell, shipsInfo, gamePlayer.ships, Location(cell.row, cell.col))
    ensures forall s :: s in gamePlayer.ships ==> s.status == old(s.status) && s.gamePlayer == old(s.gamePlayer)
  {
    var loc := Location(cell.row, cell.col);
    var ships := gamePlayer.ships;
    for i := 0 to |shipsInfo|
      invariant cell.gameShip == LastLink(Links(shipsInfo[..i], ships, loc))
      invariant forall s :: s in ships ==> s.cells == Grown(old(s.cells), s, cell, shipsInfo[..i], ships, loc)
      invariant forall s :: s in ships ==> s.status == old(s.status) && s.gamePlayer == old(s.gamePlayer)
    {
      ghost var link := LinkOf(shipsInfo[i], ships, loc);
      LinksStep(shipsInfo, i, ships, loc);
      assert shipsInfo[..i + 1][..i] == shipsInfo[..i];
      assert LastLink(Links(shipsInfo[..i], ships, loc) + link) ==
        if link == [] then LastLink(Links(shipsInfo[..i], ships, loc)) else link[0];
      LinkRequest(cell, shipsInfo[i], ships);
    }
    assert shipsInfo[..|shipsInfo|] == shipsInfo;
    forall s | s in ships
      ensures s.cells == old(s.cells) + CellsFor(s, cell, shipsInfo, ships, loc)
    {
      GrownAppends(old(s.cells), s, cell, shipsInfo, ships, loc);
    }
  }

  /** `base` followed by the copies of `c` the requests append to `s`. */
  ghost function Grown(base: seq<Cell>, s: GameShip, c: Cell, requests: seq<ShipRequest>, ships: seq<GameShip>, loc: Location): seq<Cell>
    decreases |requests|
  {
    if |requests| == 0 then base
    else
      var n := |requests| - 1;
      Grown(base, s, c, requests[..n], ships, loc) + (if s in LinkOf(requests[n], ships, loc) then [c] else [])
  }

  lemma {:induction false} GrownAppends(base: seq<Cell>, s: GameShip, c: Cell, requests: seq<ShipRequest>, ships: seq<GameShip>, loc: Location)
    ensures Grown(base, s, c, requests, ships, loc) == base + CellsFor(s, c, requests, ships, loc)
    decreases |requests|
  {
    if |requests| > 0 {
      GrownAppends(base, s, c, requests[..|requests| - 1], ships, loc);
    }
  }

  /** Appended grows by the new cell's links. */
  lemma AppendedStep(cells: seq<Cell>, c: Cell, requests: seq<ShipRequest>, ships: seq<GameShip>)
    requires |cells| < GRID_VALUE * GRID_VALUE
    ensures forall s :: (Appended(s, cells + [c], requests, ships) ==
      Appended(s, cells, requests, ships) + CellsFor(s, c, requests, ships, GridLocation(|cells|)))
  {
    assert (cells + [c])[..|cells|] == cells;
  }

  lemma CellsBuiltStep(cells: seq<Cell>, c: Cell, gamePlayer: GamePlayer, requests: seq<ShipRequest>, ships: seq<GameShip>)
    requires CellsBuilt(cells, gamePlayer, requests, ships) && |cells| < GRID_VALUE * GRID_VALUE
    requires FreshCellAt(c, |cells|, gamePlayer) && c.gameShip == LastLink(Links(requests, ships, GridLocation(|cells|)))
    ensures CellsBuilt(cells + [c], gamePlayer, requests, ships)
  {
    var t := cells + [c];
    forall k | 0 <= k < |t|
      ensures FreshCellAt(t[k], k, gamePlayer) && t[k].gameShip == LastLink(Links(requests, ships, GridLocation(k)))
    {
      if k < |cells| {
        assert t[k] == cells[k];
      }
    }
  }

  /** One pass of the column loop of populateGameBoard: a new cell for the
      coordinate, linked and appended to the board. The cells appended since
      `base` are a board built so far, and `start` holds the ships' cell
      lists from before the board was begun. */
  method AddCell(request: CreationRequest, gamePlayer: GamePlayer, row: int, col: int,
                 ghost base: int, ghost start: map<GameShip, seq<Cell>>)
    requires 0 <= row < GRID_VALUE && 0 <= col < GRID_VALUE && 0 <= base
    requires |gamePlayer.board| == base + row * GRID_VALUE + col
    requires CellsBuilt(gamePlayer.board[base..], gamePlayer, request.shipsInfo, gamePlayer.ships)
    requires forall s :: s in gamePlayer.ships ==>
      s in start && s.cells == start[s] + Appended(s, gamePlayer.board[base..], request.shipsInfo, gamePlayer.ships)
    modifies gamePlayer`board, set s | s in gamePlayer.ships
    ensures |gamePlayer.board| == |old(gamePlayer.board)| + 1
    ensures gamePlayer.board[..|old(gamePlayer.board)|] == old(gamePlayer.board)
    ensures fresh(gamePlayer.board[|old(gamePlayer.board)|])
    ensures CellsBuilt(gamePlayer.board[base..], gamePlayer, request.shipsInfo, gamePlayer.ships)
    ensures forall s :: s in gamePlayer.ships ==>
      s.cells == start[s] + Appended(s, gamePlayer.board[base..], request.shipsInfo, gamePlayer.ships)
    ensures forall s :: s in gamePlayer.ships ==> s.status == old(s.status) && s.gamePlayer == old(s.gamePlayer)
  {
    ghost var prev := gamePlayer.board[base..];
    ghost var k := row * GRID_VALUE + col;
    assert |prev| == k;
    assert GridLocation(k) == Location(row as int32, col as int32);
    var gameGridEntity := new Cell(row as int32, col as int32, NotAttacked, gamePlayer);
    LinkCell(gameGridEntity, request.shipsInfo, gamePlayer);
    gamePlayer.AddGameBoard(gameGridEntity);
    assert gamePlayer.board[base..] == prev + [gameGridEntity];
    CellsBuiltStep(prev, gameGridEntity, gamePlayer, request.shipsInfo, gamePlayer.ships);
    AppendedStep(prev, gameGridEntity, request.shipsInfo, gamePlayer.ships);
  }

  /** The column loop of populateGameBoard: the ten cells of board row `row`. */
  method PopulateRow(request: CreationRequest, gamePlayer: GamePlayer, row: int, ghost base: int, ghost start: map<GameShip, seq<Cell>>)
    requires 0 <= row < GRID_VALUE && 0 <= base
    requires |gamePlayer.board| == base + row * GRID_VALUE
    requires CellsBuilt(gamePlayer.board[base..], gamePlayer, request.shipsInfo, gamePlayer.ships)
    requires forall s :: s in gamePlayer.ships ==>
      s in start && s.cells == start[s] + Appended(s, gamePlayer.board[base..], request.shipsInfo, gamePlayer.ships)
    modifies gamePlayer`board, set s | s in gamePlayer.ships
    ensures |gamePlayer.board| == base + (row + 1) * GRID_VALUE
    ensures gamePlayer.board[..|old(gamePlayer.board)|] == old(gamePlayer.board)
    ensures forall k :: |old(gamePlayer.board)| <= k < |gamePlayer.board| ==> fresh(gamePlayer.board[k])
    ensures CellsBuilt(gamePlayer.board[base..], gamePlayer, request.shipsInfo, gamePlayer.ships)
    ensures forall s :: s in gamePlayer.ships ==>
      s.cells == start[s] + Appended(s, gamePlayer.board[base..], request.shipsInfo, gamePlayer.ships)
    ensures forall s :: s in gamePlayer.ships ==> s.status == old(s.status) && s.gamePlayer == old(s.gamePlayer)
  {
    ghost var ships := gamePlayer.ships;
    ghost var rs := request.shipsInfo;
    ghost var before := |gamePlayer.board|;
    for col := 0 to GRID_VALUE
      invariant |gamePlayer.board| == before + col
      invariant gamePlayer.board[..before] == old(gamePlayer.board)
      invariant forall k :: before <= k < |gamePlayer.board| ==> fresh(gamePlayer.board[k])
      invariant CellsBuilt(gamePlayer.board[base..], gamePlayer, rs, ships)
      invariant forall s :: s in ships ==> s.cells == start[s] + Appended(s, gamePlayer.board[base..], rs, ships)
      invariant forall s :: s in ships ==> s.status == old(s.status) && s.gamePlayer == old(s.gamePlayer)
    {
      AddCell(request, gamePlayer, row, col, base, start);
    }
  }

  /** populateGameBoard: appends the 100 cells of a fresh board, row by row,
      each NOT_ATTACKED and owned by the side, and links each to the fleet.
      The list it returns stays empty; the ship list it is given is not read. */
  method PopulateGameBoard(request: CreationRequest, gameShips: seq<GameShip>, gamePlayer: GamePlayer)
    returns (gameGrids: seq<Cell>)
    modifies gamePlayer`board, set s | s in gamePlayer.ships
    ensures gameGrids == []
    ensures |gamePlayer.board| == |old(gamePlayer.board)| + GRID_VALUE * GRID_VALUE
    ensures gamePlayer.board[..|old(gamePlayer.board)|] == old(gamePlayer.board)
    ensures forall k :: |old(gamePlayer.board)| <= k < |gamePlayer.board| ==> fresh(gamePlayer.board[k])
    ensures CellsBuilt(gamePlayer.board[|old(gamePlayer.board)|..], gamePlayer, request.shipsInfo, gamePlayer.ships)
    ensures forall s :: s in gamePlayer.ships ==>
      s.cells == old(s.cells) + Appended(s, gamePlayer.board[|old(gamePlayer.board)|..], request.shipsInfo, gamePlayer.ships)
    ensures forall s :: s in gamePlayer.ships ==> s.status == old(s.status) && s.gamePlayer == old(s.gamePlayer)
  {
    gameGrids := [];
    var gridSize := GRID_VALUE;
    ghost var base := |gamePlayer.board|;
    ghost var ships := gamePlayer.ships;
    ghost var rs := request.shipsInfo;
    ghost var start := map s | s in ships :: s.cells;
    assert gamePlayer.board[base..] == [];
    for row := 0 to gridSize
      invariant |gamePlayer.board| == base + row * GRID_VALUE
      invariant gamePlayer.board[..base] == old(gamePlayer.board)
      invariant forall k :: base <= k < |gamePlayer.board| ==> fresh(gamePlayer.board[k])
      invariant CellsBuilt(gamePlayer.board[base..], gamePlayer, rs, ships)
      invariant forall s :: s in ships ==> s in start && s.cells == start[s] + Appended(s, gamePlayer.board[base..], rs, ships)
      invariant forall s :: s in ships ==> s.status == old(s.status) && s.gamePlayer == old(s.gamePlayer)
    {
      PopulateRow(request, gamePlayer, row, base, start);
    }
  }

  // ---- what a ship receives from the board ----

  /** The number of board positions below `n` whose coordinate is listed in `locs`. */
  function HitCount(locs: seq<Location>, n: int): nat
    requires 0 <= n <= GRID_VALUE * GRID_VALUE
  {
    if n == 0 then 0 else HitCount(locs, n - 1) + (if GridLocation(n - 1) in locs then 1 else 0)
  }

  function BoardIndex(l: Location): int
  {
    l.row as int * GRID_VALUE + l.col as int
  }

  /** The listed on-board coordinates whose position is below `n`. */
  ghost function ListedBelow(locs: seq<Location>, n: int): set<Location>
  {
    set l | l in locs && OnBoard(l) && BoardIndex(l) < n
  }

  lemma {:induction false} HitCountCountsListed(locs: seq<Location>, n: int)
    requires 0 <= n <= GRID_VALUE * GRID_VALUE
    ensures HitCount(locs, n) == |ListedBelow(locs, n)|
  {
    if n == 0 {
      assert ListedBelow(locs, 0) == {};
    } else {
      HitCountCountsListed(locs, n - 1);
      var g := GridLocation(n - 1);
      assert OnBoard(g) && BoardIndex(g) == n - 1;
      forall l | l in locs && OnBoard(l) && BoardIndex(l) == n - 1
        ensures l == g
      {
      }
      if g in locs {
        assert ListedBelow(locs, n) == ListedBelow(locs, n - 1) + {g};
      } else {
        assert ListedBelow(locs, n) == ListedBelow(locs, n - 1);
      }
    }
  }

  /** With a single request whose id selects ship `s`, `s` receives one cell
      per board position listed by the request. */
  lemma {:induction false} AppendedSingleRequest(s: GameShip, cells: seq<Cell>, request: ShipRequest, ships: seq<GameShip>)
    requires |cells| <= GRID_VALUE * GRID_VALUE
    requires FirstWithTemplate(ships, request.shipId) == s
    ensures |Appended(s, cells, [request], ships)| == HitCount(request.locations, |cells|)
    decreases |cells|
  {
    if |cells| > 0 {
      var k := |cells| - 1;
      AppendedSingleRequest(s, cells[..k], request, ships);
      assert [request][..0] == [];
      assert |CellsFor(s, cells[k], [request], ships, GridLocation(k))| == if GridLocation(k) in request.locations then 1 else 0;
    }
  }

  lemma {:induction false} DistinctCardinality(locs: seq<Location>)
    requires !HasRepeat(locs)
    ensures |set l | l in locs| == |locs|
    decreases |locs|
  {
    if |locs| > 0 {
      var front := locs[..|locs| - 1];
      var x := locs[|locs| - 1];
      assert !HasRepeat(front) by {
        forall i, j | 0 <= i < j < |front|
          ensures front[i] != front[j]
        {
          assert front[i] == locs[i] && front[j] == locs[j];
        }
      }
      DistinctCardinality(front);
      assert x !in front;
      assert (set l | l in locs) == (set l | l in front) + {x};
    }
  }

  /** A ship laid out on the board and submitted alone receives exactly one
      cell per distinct coordinate; coordinates off the board give none. So a
      ship of five distinct on-board coordinates receives five cells. */
  lemma ShipReceivesListedCells(s: GameShip, cells: seq<Cell>, request: ShipRequest, ships: seq<GameShip>)
    requires |cells| == GRID_VALUE * GRID_VALUE
    requires FirstWithTemplate(ships, request.shipId) == s
    ensures |Appended(s, cells, [request], ships)| == |set l | l in request.locations && OnBoard(l)|
    ensures (forall i :: 0 <= i < |request.locations| ==> OnBoard(request.locations[i])) && !HasRepeat(request.locations)
            ==> |Appended(s, cells, [request], ships)| == |request.locations|
  {
    AppendedSingleRequest(s, cells, request, ships);
    HitCountCountsListed(request.locations, |cells|);
    assert ListedBelow(request.locations, |cells|) == set l | l in request.locations && OnBoard(l);
    if (forall i :: 0 <= i < |request.locations| ==> OnBoard(request.locations[i])) && !HasRepeat(request.locations) {
      DistinctCardinality(request.locations);
      assert (set l | l in request.locations && OnBoard(l)) == set l | l in request.locations;
    }
  }

  /** A coordinate no request lists stays unlinked. */
  lemma {:induction false} UnlistedCellHasNoShip(requests: seq<ShipRequest>, ships: seq<GameShip>, loc: Location)
    requires forall i :: 0 <= i < |requests| ==> loc !in requests[i].locations
    ensures LastLink(Links(requests, ships, loc)) == null
    decreases |requests|
  {
    if |requests| > 0 {
      var front := requests[..|requests| - 1];
      assert forall i :: 0 <= i < |front| ==> front[i] == requests[i];
      UnlistedCellHasNoShip(front, ships, loc);
    }
  }

  // ---- one attack ----

  /** A board cell at the coordinate that belongs to the side. */
  predicate Matches(c: Cell, loc: Location, owner: GamePlayer)
    reads c
  {
    c.row == loc.row && c.col == loc.col && c.gamePlayer == owner
  }

  /** The first cell of the board at the coordinate owned by the side, or null. */
  function FindCell(board: seq<Cell>, loc: Location, owner: GamePlayer): (r: Cell?)
    reads board
    ensures r != null ==> r in board && Matches(r, loc, owner)
    ensures r == null <==> forall c :: c in board ==> !Matches(c, loc, owner)
  {
    if |board| == 0 then null
    else if Matches(board[0], loc, owner) then board[0]
    else FindCell(board[1..], loc, owner)
  }

  /** The search stops at the earliest matching cell. */
  lemma {:induction false} FindCellIsFirst(board: seq<Cell>, loc: Location, owner: GamePlayer, i: int)
    requires 0 <= i < |board| && Matches(board[i], loc, owner)
    requires forall j :: 0 <= j < i ==> !Matches(board[j], loc, owner)
    ensures FindCell(board, loc, owner) == board[i]
  {
    if i > 0 {
      assert board[1..][i - 1] == board[i];
      FindCellIsFirst(board[1..], loc, owner, i - 1);
    }
  }

  /** The ship an attack at the coordinate would hit: the ship of the
      matching cell when that cell is not yet attacked, else null. */
  function ShipAt(board: seq<Cell>, loc: Location, owner: GamePlayer): GameShip?
    reads board
  {
    var c := FindCell(board, loc, owner);
    if c != null && c.gridValue == NotAttacked then c.gameShip else null
  }

  /** validateGameBoardCoordinate: a missing cell, then an attacked cell, fail. */
  function ValidateGameBoardCoordinate(gameGridEntity: Cell?): (r: Outcome)
    reads gameGridEntity
    ensures gameGridEntity == null ==> r == Fail(CoordinatesNotExists)
    ensures gameGridEntity != null && gameGridEntity.gridValue == Attacked ==> r == Fail(AlreadyAttacked)
    ensures r == Pass <==> gameGridEntity != null && gameGridEntity.gridValue == NotAttacked
  {
    if gameGridEntity == null then Fail(CoordinatesNotExists)
    else if gameGridEntity.gridValue.Attacked? then Fail(AlreadyAttacked)
    else Pass
  }

  /** updateGameBoardCoordinate: marks the cell and appends it once more to the board. */
  method UpdateGameBoardCoordinate(opponentPlayer: GamePlayer, gameGridEntity: Cell)
    modifies gameGridEntity`gridValue, gameGridEntity`gamePlayer, opponentPlayer`board
    ensures gameGridEntity.gridValue == Attacked
    ensures gameGridEntity.gamePlayer == opponentPlayer
    ensures opponentPlayer.board == old(opponentPlayer.board) + [gameGridEntity]
  {
    gameGridEntity.gridValue := Attacked;
    opponentPlayer.AddGameBoard(gameGridEntity);
  }

  /** validateAndSaveGrid: attacks the opponent's cell at the coordinate and
      returns the ship on it (null for a miss); a missing or already attacked
      cell fails before anything changes. */
  method ValidateAndSaveGrid(attackedGrid: Location, opponentPlayer: GamePlayer) returns (r: Result<GameShip?>)
    modifies opponentPlayer`board, FindCell(opponentPlayer.board, attackedGrid, opponentPlayer)
    ensures var target := old(FindCell(opponentPlayer.board, attackedGrid, opponentPlayer));
      && (target == null ==> r == Err(CoordinatesNotExists) && opponentPlayer.board == old(opponentPlayer.board))
      && (target != null && old(target.gridValue) == Attacked ==>
            r == Err(AlreadyAttacked) && opponentPlayer.board == old(opponentPlayer.board) && unchanged(target))
      && (target != null && old(target.gridValue) == NotAttacked ==>
            r == Ok(target.gameShip) && target.gridValue == Attacked &&
            target.gameShip == old(target.gameShip) && target.gamePlayer == opponentPlayer &&
            opponentPlayer.board == old(opponentPlayer.board) + [target])
  {
    var gameGridEntity := FindCell(opponentPlayer.board, attackedGrid, opponentPlayer);
    var valid := ValidateGameBoardCoordinate(gameGridEntity);
    if valid.Fail? {
      return Err(valid.error);
    }
    UpdateGameBoardCoordinate(opponentPlayer, gameGridEntity);
    r := Ok(gameGridEntity.gameShip);
  }
}
