/** GameService: building a game from two submissions, one turn of play,
    and the lookups of games and game players. The game and game-player
    tables are maps from id to object; the UUID parser is a parameter. */
module Games {
  import opened Types
  import opened Entities
  import opened Ships
  import opened Board
  import opened Players

  /** GameShipResponse: the name and status of the ship that was hit. */
  datatype ShipHit = ShipHit(gameShipName: string, gameShipStatus: ShipStatus)

  /** GamePlayResponse: the game, its winner's id once there is one, and the hit ship. */
  datatype GamePlayResponse = GamePlayResponse(gameId: Uuid, gameWinnerId: Option<int>, gameShipHitOrSunked: Option<ShipHit>)

  /** isGameOver: every ship of the side is sunk; a side without ships is over. */
  function IsGameOver(gamePlayer: GamePlayer): (r: bool)
    reads gamePlayer, gamePlayer.ships
    ensures |gamePlayer.ships| == 0 ==> r
    ensures !r ==> exists i :: 0 <= i < |gamePlayer.ships| && gamePlayer.ships[i].status == NotSunk
  {
    forall i :: 0 <= i < |gamePlayer.ships| ==> gamePlayer.ships[i].status == Sunk
  }

  /** convertToGamePlayResponse: the winner's id exactly when a winner is set,
      the ship's name and status exactly when a ship was hit. */
  function ConvertToGamePlayResponse(gameEntity: Game, gameShipEntity: GameShip?): (r: GamePlayResponse)
    requires gameEntity.id.Some?
    reads gameEntity, gameEntity.winner, gameShipEntity
    ensures r.gameId == gameEntity.id.value
    ensures gameEntity.winner == null ==> r.gameWinnerId == None
    ensures gameEntity.winner != null ==> r.gameWinnerId == gameEntity.winner.id
    ensures r.gameShipHitOrSunked.Some? <==> gameShipEntity != null
    ensures gameShipEntity != null ==>
      r.gameShipHitOrSunked == Some(ShipHit(gameShipEntity.ship.shipName, gameShipEntity.status))
  {
    var winnerId := if gameEntity.winner != null then gameEntity.winner.id else None;
    var hit := if gameShipEntity != null then Some(ShipHit(gameShipEntity.ship.shipName, gameShipEntity.status)) else None;
    GamePlayResponse(gameEntity.id.value, winnerId, hit)
  }

  /** Every cell of the list other than `target` has been attacked, so
      attacking `target` leaves the whole list attacked. */
  predicate AttackedExcept(cells: seq<Cell>, target: Cell)
    reads cells
  {
    forall c :: c in cells ==> c == target || c.gridValue == Attacked
  }

  /** The side of the game that is not `side`. */
  function Other(g: Game, side: GamePlayer): GamePlayer
  {
    if side == g.player1 then g.player2 else g.player1
  }

  /** The side, its board cells and its fleet all lie in `repr`. */
  ghost predicate SideClosed(p: GamePlayer, repr: set<object>)
    reads p
  {
    p in repr &&
    (forall i :: 0 <= i < |p.board| ==> p.board[i] in repr) &&
    (forall i :: 0 <= i < |p.ships| ==> p.ships[i] in repr)
  }

  /** A side closed in a footprint stays closed in a larger one. */
  lemma SideClosedGrows(p: GamePlayer, r1: set<object>, r2: set<object>)
    requires SideClosed(p, r1) && r1 <= r2
    ensures SideClosed(p, r2)
  {
  }

  /** Every board cell with a ship points at a ship of the side's own fleet. */
  ghost predicate BoardLinked(p: GamePlayer)
    reads p, p.board
  {
    forall i :: 0 <= i < |p.board| && p.board[i].gameShip != null ==> p.board[i].gameShip in p.ships
  }

  /** BoardLinked for the board `board` and the fleet `ships`. */
  ghost predicate Linked(board: seq<Cell>, ships: seq<GameShip>)
    reads board
  {
    forall i :: 0 <= i < |board| && board[i].gameShip != null ==> board[i].gameShip in ships
  }

  /** A stored game: two distinct sides, the turn held by one of them, and
      a winner exactly when the game is completed, whose opponent's fleet is
      entirely sunk. */
  ghost predicate GameOk(k: Uuid, g: Game)
    reads g, g.player1, g.player2, g.player1.ships, g.player2.ships
  {
    g.id == Some(k) && g.player1 != g.player2 &&
    (g.currentPlayer == g.player1 || g.currentPlayer == g.player2) &&
    (g.winner == null || g.winner == g.player1 || g.winner == g.player2) &&
    (g.status == Completed <==> g.winner != null) &&
    (g.winner != null ==> IsGameOver(Other(g, g.winner)))
  }

  /** At the end of a game both players stop playing and leave the joined
      state, so that each has to join again before the next game. */
  method ReleasePlayers(a: Player, b: Player)
    modifies a, b
    ensures !a.isPlaying && !b.isPlaying && !a.isLocked && !b.isLocked
  {
    a.isPlaying := false;
    b.isPlaying := false;
    a.isLocked := false;
    b.isLocked := false;
  }

  /** The side is saved in the game-player table under its id. */
  ghost predicate StoredIn(p: GamePlayer, gamePlayers: map<int, GamePlayer>)
    reads p
  {
    p.id.Some? && p.id.value in gamePlayers && gamePlayers[p.id.value] == p
  }

  /** One entry of the game table: a valid game whose two sides are saved
      and whose boards point only into their own fleets. */
  ghost predicate Entry(k: Uuid, g: Game, gamePlayers: map<int, GamePlayer>)
    reads g, g.player1, g.player2, g.player1.ships, g.player2.ships, g.player1.board, g.player2.board
  {
    GameOk(k, g) && StoredIn(g.player1, gamePlayers) && StoredIn(g.player2, gamePlayers) &&
    BoardLinked(g.player1) && BoardLinked(g.player2)
  }

  // ---- what creating a side checks ----

  /** The failure validateGameShipGrids reports: overlap first, then a ship
      whose cells are not in one straight line. */
  function GridsError(shipsInfo: seq<ShipRequest>): (e: Option<Error>)
    ensures e.None? <==> PlacementValid(shipsInfo)
    ensures HasRepeat(AllLocations(shipsInfo)) ==> e == Some(ShipsOverlapping)
  {
    if HasRepeat(AllLocations(shipsInfo)) then Some(ShipsOverlapping)
    else if exists k :: 0 <= k < |shipsInfo| && !Straight(shipsInfo[k].locations) then Some(ShipsNotAdjacent)
    else None
  }

  /** The verdict of validateShip on one requested ship. */
  function ShipCheck(catalog: seq<ShipTemplate>, request: ShipRequest): Outcome
  {
    ValidateShip(catalog, request.shipId, |request.locations|)
  }

  /** The failure of the first requested ship that validateShip rejects. */
  function FirstShipError(catalog: seq<ShipTemplate>, shipsInfo: seq<ShipRequest>): (e: Option<Error>)
    ensures e.None? <==> forall k :: 0 <= k < |shipsInfo| ==> ShipCheck(catalog, shipsInfo[k]).Pass?
    ensures e.Some? ==> exists k :: 0 <= k < |shipsInfo| && ShipCheck(catalog, shipsInfo[k]) == Fail(e.value) &&
                                   forall j :: 0 <= j < k ==> ShipCheck(catalog, shipsInfo[j]).Pass?
  {
    if |shipsInfo| == 0 then None
    else match ShipCheck(catalog, shipsInfo[0])
      case Fail(err) => Some(err)
      case Pass =>
        var rest := FirstShipError(catalog, shipsInfo[1..]);
        assert forall k :: 1 <= k < |shipsInfo| ==> shipsInfo[1..][k - 1] == shipsInfo[k];
        if rest.Some? then
          var k :| 0 <= k < |shipsInfo| - 1 && ShipCheck(catalog, shipsInfo[1..][k]) == Fail(rest.value) &&
                   forall j :: 0 <= j < k ==> ShipCheck(catalog, shipsInfo[1..][j]).Pass?;
          assert ShipCheck(catalog, shipsInfo[k + 1]) == Fail(rest.value);
          rest
        else rest
  }

  /** The failure validateAndPopulateGameShip raises for a fleet: the
      placement checks, then the ships one by one. */
  function ShipsError(catalog: seq<ShipTemplate>, shipsInfo: seq<ShipRequest>): (e: Option<Error>)
    ensures e.None? <==> PlacementValid(shipsInfo) &&
                         forall k :: 0 <= k < |shipsInfo| ==> ShipCheck(catalog, shipsInfo[k]).Pass?
    ensures !PlacementValid(shipsInfo) ==> e == GridsError(shipsInfo)
  {
    var grids := GridsError(shipsInfo);
    if grids.Some? then grids else FirstShipError(catalog, shipsInfo)
  }

  /** Dropping requests that pass validateShip does not change which one fails first. */
  lemma {:induction false} FirstShipErrorFrom(catalog: seq<ShipTemplate>, shipsInfo: seq<ShipRequest>, i: int)
    requires 0 <= i <= |shipsInfo|
    requires forall j :: 0 <= j < i ==> ShipCheck(catalog, shipsInfo[j]).Pass?
    ensures FirstShipError(catalog, shipsInfo) == FirstShipError(catalog, shipsInfo[i..])
    decreases i
  {
    if i > 0 {
      assert shipsInfo[1..][i - 1..] == shipsInfo[i..];
      FirstShipErrorFrom(catalog, shipsInfo[1..], i - 1);
    }
  }

  /** A side as one submission builds it: one ship per requested ship, in
      request order, each from its catalog template, not sunk and owned by
      the side, and a full board whose cells carry their coordinates and
      links, each ship holding the cells linked to it. */
  ghost predicate SideBuilt(gp: GamePlayer, request: CreationRequest, catalog: seq<ShipTemplate>)
    reads gp, gp.ships, gp.board
  {
    FleetBuilt(gp, gp.ships, gp.board, request, catalog)
  }

  /** SideBuilt for the fleet `ships` and board `board` of side `gp`. */
  ghost predicate FleetBuilt(gp: GamePlayer, ships: seq<GameShip>, board: seq<Cell>, request: CreationRequest,
                             catalog: seq<ShipTemplate>)
    reads ships, board
  {
    |ships| == |request.shipsInfo| && |board| == GRID_VALUE * GRID_VALUE &&
    (forall j :: 0 <= j < |ships| ==>
      GetShipByShipId(catalog, request.shipsInfo[j].shipId) == Ok(ships[j].ship) &&
      ships[j].status == NotSunk && ships[j].gamePlayer == gp &&
      ships[j].cells == Appended(ships[j], board, request.shipsInfo, ships)) &&
    CellsBuilt(board, gp, request.shipsInfo, ships)
  }

  /** A side as one pass of createGame's loop leaves it: its fleet and
      board as built, and its player both joined and playing. */
  ghost predicate SideMade(gp: GamePlayer, request: CreationRequest, catalog: seq<ShipTemplate>)
    reads gp, gp.player, gp.ships, gp.board
  {
    FleetBuilt(gp, gp.ships, gp.board, request, catalog) && Linked(gp.board, gp.ships) &&
    gp.player.isLocked && gp.player.isPlaying
  }

  /** A fleet that validateAndPopulateGameShip built and the board that
      populateGameBoard then added make up the side the submission describes. */
  lemma BoardMakesSide(gp: GamePlayer, request: CreationRequest, catalog: seq<ShipTemplate>, ships: seq<GameShip>)
    requires gp.ships == ships && |ships| == |request.shipsInfo|
    requires forall j :: 0 <= j < |ships| ==> GetShipByShipId(catalog, request.shipsInfo[j].shipId) == Ok(ships[j].ship)
    requires forall s :: s in ships ==> s.status == NotSunk && s.gamePlayer == gp
    requires |gp.board| == GRID_VALUE * GRID_VALUE
    requires CellsBuilt(gp.board, gp, request.shipsInfo, ships)
    requires forall s :: s in ships ==> s.cells == Appended(s, gp.board, request.shipsInfo, ships)
    ensures SideBuilt(gp, request, catalog) && BoardLinked(gp)
  {
    forall i | 0 <= i < |gp.board| && gp.board[i].gameShip != null
      ensures gp.board[i].gameShip in gp.ships
    {
      LinksInFleet(request.shipsInfo, ships, GridLocation(i));
    }
    assert forall j :: 0 <= j < |ships| ==> ships[j] in ships;
  }

  class GameService {
    var games: map<Uuid, Game>
    var gamePlayers: map<int, GamePlayer>
    /** The next value of the game-player id column. */
    var nextGamePlayerId: int
    ghost var Repr: set<object>
    const catalog: seq<ShipTemplate>
    const playerService: PlayerService
    /** UUID.fromString: None where it throws. */
    const parseId: string -> Option<Uuid>

    ghost predicate Valid()
      reads this, Repr
    {
      (forall k :: k in games ==>
        games[k] in Repr && games[k].player1 in Repr && games[k].player2 in Repr &&
        SideClosed(games[k].player1, Repr) && SideClosed(games[k].player2, Repr) &&
        Entry(k, games[k], gamePlayers)) &&
      (forall k :: k in gamePlayers ==>
        gamePlayers[k] in Repr && gamePlayers[k].id == Some(k) && k < nextGamePlayerId)
    }

    constructor (catalog: seq<ShipTemplate>, playerService: PlayerService, parseId: string -> Option<Uuid>)
      ensures this.catalog == catalog && this.playerService == playerService && this.parseId == parseId
      ensures games == map[] && gamePlayers == map[] && nextGamePlayerId == 1
      ensures Valid()
    {
      this.catalog := catalog;
      this.playerService := playerService;
      this.parseId := parseId;
      games := map[];
      gamePlayers := map[];
      nextGamePlayerId := 1;
      Repr := {};
    }

    /** fetchGameByGameId: a malformed id fails; an unknown one gives null. */
    function FetchGameByGameId(gameId: string): (r: Result<Game?>)
      reads this
      ensures parseId(gameId).None? ==> r == Err(InvalidGameId)
      ensures parseId(gameId).Some? ==> r.Ok? && (r.value != null <==> parseId(gameId).value in games)
      ensures r.Ok? && r.value != null ==> r.value == games[parseId(gameId).value]
    {
      match parseId(gameId)
      case None => Err(InvalidGameId)
      case Some(id) => Ok(if id in games then games[id] else null)
    }

    /** fetchGameDetails: a malformed id is a validation failure, an unknown
        one an application failure. */
    function FetchGameDetails(gameId: string): (r: Result<Game>)
      reads this
      ensures r.Ok? <==> parseId(gameId).Some? && parseId(gameId).value in games
      ensures r.Ok? ==> r.value == games[parseId(gameId).value]
      ensures r.Err? ==> (Kind(r.error) == Validation <==> parseId(gameId).None?)
      ensures r.Err? ==> (Kind(r.error) == Application <==> parseId(gameId).Some?)
    {
      var game := FetchGameByGameId(gameId);
      if game.Err? then Err(game.error)
      else if game.value == null then Err(GameIdNotExists)
      else Ok(game.value)
    }

    /** A game found by its id carries that id. */
    lemma FetchedGameHasId(gameId: string)
      requires Valid() && FetchGameDetails(gameId).Ok?
      ensures FetchGameDetails(gameId).value.id == parseId(gameId)
    {
      var k := parseId(gameId).value;
      assert Entry(k, games[k], gamePlayers);
    }

    /** fetchGamePlayerByGamePlayerId: any stored game player, of any game. */
    function FetchGamePlayerByGamePlayerId(request: PlayRequest): (r: GamePlayer?)
      reads this
      ensures r != null <==> request.currentPlayer in gamePlayers
      ensures r != null ==> r == gamePlayers[request.currentPlayer]
    {
      if request.currentPlayer in gamePlayers then gamePlayers[request.currentPlayer] else null
    }

    // ---- one turn ----

    /** The game a play request names; null for a malformed or unknown id. */
    function TurnGame(request: PlayRequest): (r: Game?)
      reads this
      ensures r != null <==> parseId(request.gameId).Some? && parseId(request.gameId).value in games
    {
      var fetched := FetchGameByGameId(request.gameId);
      if fetched.Err? then null else fetched.value
    }

    /** The request passes the game, player and turn checks. */
    ghost predicate TurnChecked(request: PlayRequest)
      requires Valid()
      reads this, Repr
    {
      var g := TurnGame(request);
      g != null && FetchGamePlayerByGamePlayerId(request) != null &&
      g.currentPlayer == FetchGamePlayerByGamePlayerId(request)
    }

    /** A checked request's game and its opponent side are stored and valid. */
    lemma TurnGameOk(request: PlayRequest)
      requires Valid() && TurnGame(request) != null
      ensures var g := TurnGame(request);
        g in Repr && g.player1 in Repr && g.player2 in Repr && SideClosed(g.player1, Repr) && SideClosed(g.player2, Repr) &&
        Entry(parseId(request.gameId).value, g, gamePlayers)
    {
    }

    /** The checks of a turn leave the table as it is when every game and
        side keeps its fields except that fleets and boards only grow, by
        sunk ships and by cells already on the board, and sunk ships stay
        sunk. */
    twostate lemma ValidKept()
      requires old(Valid()) && unchanged(this)
      requires forall g: Game :: g in Repr ==> unchanged(g)
      requires forall p: GamePlayer :: p in Repr ==>
        p.id == old(p.id) && old(p.ships) <= p.ships && old(p.board) <= p.board &&
        (forall i :: |old(p.ships)| <= i < |p.ships| ==> p.ships[i] in Repr && p.ships[i].status == Sunk) &&
        (forall i :: |old(p.board)| <= i < |p.board| ==> p.board[i] in old(p.board))
      requires forall c: Cell :: c in Repr ==> c.gameShip == old(c.gameShip)
      requires forall s: GameShip :: s in Repr && old(s.status) == Sunk ==> s.status == Sunk
      ensures Valid()
    {
      forall k | k in games
        ensures SideClosed(games[k].player1, Repr) && SideClosed(games[k].player2, Repr)
        ensures Entry(k, games[k], gamePlayers)
      {
        var g := games[k];
        assert old(Entry(k, g, gamePlayers));
        SideKept(g.player1);
        SideKept(g.player2);
      }
    }

    twostate lemma SideKept(p: GamePlayer)
      requires old(SideClosed(p, Repr)) && old(BoardLinked(p)) && unchanged(this)
      requires p.id == old(p.id) && old(p.ships) <= p.ships && old(p.board) <= p.board
      requires forall i :: |old(p.ships)| <= i < |p.ships| ==> p.ships[i] in Repr && p.ships[i].status == Sunk
      requires forall i :: |old(p.board)| <= i < |p.board| ==> p.board[i] in old(p.board)
      requires forall c: Cell :: c in Repr ==> c.gameShip == old(c.gameShip)
      requires forall s: GameShip :: s in Repr && old(s.status) == Sunk ==> s.status == Sunk
      ensures SideClosed(p, Repr) && BoardLinked(p)
      ensures old(IsGameOver(p)) ==> IsGameOver(p)
    {
    }

    /** What a turn may change: the game, the opponent side, the attacked
        cell and the ship on it, and the two players' flags. */
    ghost function TurnFrame(request: PlayRequest): set<object>
      requires Valid()
      reads *
    {
      if !TurnChecked(request) then {}
      else
        var g := TurnGame(request);
        TurnGameOk(request);
        var opp := Other(g, g.currentPlayer);
        var target := FindCell(opp.board, request.attackedGrid, opp);
        var sides: set<object> := {g, opp, g.player1.player, g.player2.player};
        var ship := ShipAt(opp.board, request.attackedGrid, opp);
        sides + (if target == null then {} else {target}) + (if ship == null then {} else {ship})
    }

    /** The attack on side `opp` (validateAndSaveGrid) and the refresh of
        the ship that was hit (updateGameShipStatus). */
    method Attack(opp: GamePlayer, loc: Location) returns (r: Result<GameShip?>)
      requires Valid() && opp in Repr && SideClosed(opp, Repr) && BoardLinked(opp)
      modifies opp, FindCell(opp.board, loc, opp), ShipAt(opp.board, loc, opp)
      ensures Valid()
      ensures var target := old(FindCell(opp.board, loc, opp));
        && (target == null ==> r == Err(CoordinatesNotExists) && unchanged(opp))
        && (target != null && old(target.gridValue) == Attacked ==>
              r == Err(AlreadyAttacked) && unchanged(opp, target))
        && (target != null && old(target.gridValue) == NotAttacked ==>
              var ship := old(target.gameShip);
              && r == Ok(ship)
              && target.gridValue == Attacked && target.gameShip == ship && target.gamePlayer == opp
              && opp.board == old(opp.board) + [target]
              && (ship != null ==> ship.cells == old(ship.cells))
              && (ship != null && old(AttackedExcept(ship.cells, target)) ==>
                    ship.status == Sunk && ship.gamePlayer == opp && opp.ships == old(opp.ships) + [ship])
              && (ship == null || !old(AttackedExcept(ship.cells, target)) ==> opp.ships == old(opp.ships))
              && (ship != null && !old(AttackedExcept(ship.cells, target)) ==> unchanged(ship)))
    {
      r := ValidateAndSaveGrid(loc, opp);
      if r.Err? {
        return;
      }
      var opponentGameShip := r.value;
      ghost var target := old(FindCell(opp.board, loc, opp));
      assert target in old(opp.board);
      assert opponentGameShip != null ==> opponentGameShip in old(opp.ships);
      assert opponentGameShip != null ==>
        (AllAttacked(opponentGameShip.cells) <==> old(AttackedExcept(opponentGameShip.cells, target)));
      UpdateGameShipStatus(opponentGameShip, opp);
      ValidKept();
    }

    /** Changing the fields of one stored game keeps the tables valid when
        the game itself stays valid. */
    twostate lemma GameChanged(k: Uuid)
      requires old(Valid()) && unchanged(this) && k in games
      requires forall h: Game :: h in Repr && h != games[k] ==> unchanged(h)
      requires forall p: GamePlayer :: p in Repr ==> unchanged(p)
      requires forall c: Cell :: c in Repr ==> unchanged(c)
      requires forall s: GameShip :: s in Repr ==> unchanged(s)
      requires GameOk(k, games[k])
      ensures Valid()
    {
      var g := games[k];
      assert old(Entry(k, g, gamePlayers));
      forall k' | k' in games && k' != k
        ensures Entry(k', games[k'], gamePlayers)
      {
        var h := games[k'];
        assert old(Entry(k', h, gamePlayers));
        assert h != g;
        assert h in old(Repr);
        assert h in Repr;
        assert unchanged(h) && unchanged(h.player1) && unchanged(h.player2);
        assert forall i :: 0 <= i < |h.player1.ships| ==> unchanged(h.player1.ships[i]);
        assert forall i :: 0 <= i < |h.player2.ships| ==> unchanged(h.player2.ships[i]);
      }
    }

    /** The end of a turn: the game is won by the player on turn once the
        opponent has no ship afloat, and the turn passes to the opponent. */
    method EndTurn(g: Game, ghost k: Uuid)
      requires Valid() && k in games && games[k] == g
      modifies g, g.player1.player, g.player2.player
      ensures Valid()
      ensures var actor := old(g.currentPlayer);
        var opp := Other(g, actor);
        && (IsGameOver(opp) ==>
              g.winner == actor && g.status == Completed &&
              !g.player1.player.isPlaying && !g.player2.player.isPlaying &&
              !g.player1.player.isLocked && !g.player2.player.isLocked)
        && (!IsGameOver(opp) ==>
              g.winner == old(g.winner) && g.status == old(g.status) &&
              unchanged(g.player1.player, g.player2.player))
        && g.currentPlayer == opp
    {
      assert Entry(k, g, gamePlayers);
      var currentPlayer := g.currentPlayer;
      var opponentPlayer := g.GetOpponent();
      ghost var over := IsGameOver(opponentPlayer);
      if IsGameOver(opponentPlayer) {
        g.winner := currentPlayer;
        g.status := Completed;
        ReleasePlayers(g.player1.player, g.player2.player);
      }
      g.currentPlayer := opponentPlayer;
      assert IsGameOver(opponentPlayer) == over;
      assert g.winner != null ==> IsGameOver(Other(g, g.winner));
      GameChanged(k);
    }

    /** One turn of the side on turn in `g` at `loc`, from the state before
        it to the state after it: the opponent's cell at `loc` is attacked
        and added to its board list again, the ship on it is sunk and added
        to its fleet list again once all its cells are attacked, the game is
        won when the opponent has no ship afloat, and the turn passes to the
        opponent. A missing or already attacked cell changes nothing. */
    twostate predicate TurnPlayed(g: Game, loc: Location, new r: Result<GamePlayResponse>)
      reads *
    {
      old(g.currentPlayer) != null &&
      var actor := old(g.currentPlayer);
      var opp := Other(g, actor);
      var target := old(FindCell(opp.board, loc, opp));
      && (target == null ==>
            r == Err(CoordinatesNotExists) && unchanged(g, opp, g.player1.player, g.player2.player))
      && (target != null && old(target.gridValue) == Attacked ==>
            r == Err(AlreadyAttacked) && unchanged(g, opp, target, g.player1.player, g.player2.player))
      && (target != null && old(target.gridValue) == NotAttacked ==>
            var ship := old(target.gameShip);
            && target.gridValue == Attacked && target.gameShip == ship && target.gamePlayer == opp
            && opp.board == old(opp.board) + [target]
            && (ship != null ==> ship.cells == old(ship.cells))
            && (ship != null && old(AttackedExcept(ship.cells, target)) ==>
                  ship.status == Sunk && ship.gamePlayer == opp && opp.ships == old(opp.ships) + [ship])
            && (ship == null || !old(AttackedExcept(ship.cells, target)) ==> opp.ships == old(opp.ships))
            && (ship != null && !old(AttackedExcept(ship.cells, target)) ==> unchanged(ship))
            && (IsGameOver(opp) ==>
                  g.winner == actor && g.status == Completed &&
                  !g.player1.player.isPlaying && !g.player2.player.isPlaying &&
                  !g.player1.player.isLocked && !g.player2.player.isLocked)
            && (!IsGameOver(opp) ==>
                  g.winner == old(g.winner) && g.status == old(g.status) &&
                  unchanged(g.player1.player, g.player2.player))
            && g.currentPlayer == opp
            && g.id.Some? && r == Ok(ConvertToGamePlayResponse(g, ship)))
    }

    /** The attack and the end of the turn, for a stored game. */
    method Play(g: Game, ghost k: Uuid, loc: Location) returns (r: Result<GamePlayResponse>)
      requires Valid() && k in games && games[k] == g
      modifies g, g.player1.player, g.player2.player
      modifies Other(g, g.currentPlayer), FindCell(Other(g, g.currentPlayer).board, loc, Other(g, g.currentPlayer))
      modifies ShipAt(Other(g, g.currentPlayer).board, loc, Other(g, g.currentPlayer))
      ensures Valid() && TurnPlayed(g, loc, r)
    {
      assert Entry(k, g, gamePlayers);
      var opponentPlayer := g.GetOpponent();
      assert opponentPlayer == Other(g, g.currentPlayer);
      var saved := Attack(opponentPlayer, loc);
      if saved.Err? {
        return Err(saved.error);
      }
      var opponentGameShip := saved.value;
      EndTurn(g, k);
      r := Ok(ConvertToGamePlayResponse(g, opponentGameShip));
    }

    /** playerTurn: the unknown game, the unknown player and the player not
        on turn fail in that order; a request that passes them plays the
        turn. The game's status is never consulted, so a completed game can
        still be played. */
    method PlayerTurn(request: PlayRequest) returns (r: Result<GamePlayResponse>)
      requires Valid()
      modifies TurnFrame(request)
      ensures Valid()
      ensures old(TurnGame(request)) == null ==> r == Err(InvalidGameId)
      ensures old(TurnGame(request)) != null && old(FetchGamePlayerByGamePlayerId(request)) == null
              ==> r == Err(PlayerNotFound)
      ensures old(TurnGame(request)) != null && old(FetchGamePlayerByGamePlayerId(request)) != null
              && old(TurnGame(request).currentPlayer) != old(FetchGamePlayerByGamePlayerId(request))
              ==> r == Err(PlayerTurnOver)
      ensures old(TurnChecked(request)) ==>
        var g := old(TurnGame(request));
        Other(g, old(g.currentPlayer)) != old(g.currentPlayer) && TurnPlayed(g, request.attackedGrid, r)
    {
      var fetched := FetchGameByGameId(request.gameId);
      if fetched.Err? {
        return Err(fetched.error);
      }
      var gameEntity := fetched.value;
      if gameEntity == null {
        return Err(InvalidGameId);
      }
      var currentPlayer := FetchGamePlayerByGamePlayerId(request);
      if currentPlayer == null {
        return Err(PlayerNotFound);
      }
      if gameEntity.currentPlayer != currentPlayer {
        return Err(PlayerTurnOver);
      }
      TurnGameOk(request);
      r := Play(gameEntity, parseId(request.gameId).value, request.attackedGrid);
    }

    // ---- creating a game ----

    /** validateAndPopulateGameShip: the placement checks, then for each
        requested ship in order its validation and a new ship of the side.
        The first failure is the one `ShipsError` names. */
    method ValidateAndPopulateGameShip(shipsInfo: seq<ShipRequest>, gamePlayer: GamePlayer)
      returns (r: Result<seq<GameShip>>)
      modifies gamePlayer`ships
      ensures r.Err? <==> ShipsError(catalog, shipsInfo).Some?
      ensures r.Err? ==> r.error == ShipsError(catalog, shipsInfo).value
      ensures r.Ok? ==>
        |r.value| == |shipsInfo| && gamePlayer.ships == old(gamePlayer.ships) + r.value &&
        forall j :: 0 <= j < |shipsInfo| ==> GetShipByShipId(catalog, shipsInfo[j].shipId) == Ok(r.value[j].ship)
      ensures r.Ok? ==> forall s :: s in r.value ==>
        fresh(s) && s.status == NotSunk && s.gamePlayer == gamePlayer && s.cells == []
    {
      var grids := ValidateGameShipGrids(shipsInfo);
      if grids.Fail? {
        return Err(grids.error);
      }
      r := PopulateGameShips(shipsInfo, gamePlayer);
    }

    /** The loop of validateAndPopulateGameShip: each requested ship in
        order is validated and becomes a new ship of the side; the first
        ship that fails validation stops the loop. */
    method PopulateGameShips(shipsInfo: seq<ShipRequest>, gamePlayer: GamePlayer) returns (r: Result<seq<GameShip>>)
      modifies gamePlayer`ships
      ensures r.Err? <==> FirstShipError(catalog, shipsInfo).Some?
      ensures r.Err? ==> r.error == FirstShipError(catalog, shipsInfo).value
      ensures r.Ok? ==>
        |r.value| == |shipsInfo| && gamePlayer.ships == old(gamePlayer.ships) + r.value &&
        forall j :: 0 <= j < |shipsInfo| ==> GetShipByShipId(catalog, shipsInfo[j].shipId) == Ok(r.value[j].ship)
      ensures r.Ok? ==> forall s :: s in r.value ==>
        fresh(s) && s.status == NotSunk && s.gamePlayer == gamePlayer && s.cells == []
    {
      var gameShips: seq<GameShip> := [];
      for i := 0 to |shipsInfo|
        invariant |gameShips| == i
        invariant gamePlayer.ships == old(gamePlayer.ships) + gameShips
        invariant forall j :: 0 <= j < i ==> ShipCheck(catalog, shipsInfo[j]).Pass?
        invariant forall j :: 0 <= j < i ==> GetShipByShipId(catalog, shipsInfo[j].shipId) == Ok(gameShips[j].ship)
        invariant forall s :: s in gameShips ==>
          fresh(s) && s.status == NotSunk && s.gamePlayer == gamePlayer && s.cells == []
      {
        var check := ValidateShip(catalog, shipsInfo[i].shipId, |shipsInfo[i].locations|);
        if check.Fail? {
          FirstShipErrorFrom(catalog, shipsInfo, i);
          return Err(check.error);
        }
        assert ShipCheck(catalog, shipsInfo[i]).Pass?;
        var gameShip := MapToGameShipEntity(catalog, shipsInfo[i].shipId, gamePlayer);
        assert gameShip != null && GetShipByShipId(catalog, shipsInfo[i].shipId) == Ok(gameShip.ship);
        gameShips := gameShips + [gameShip];
      }
      r := Ok(gameShips);
    }

    /** The failure one submission meets on its own: the player check, then
        the fleet checks. */
    function SideError(request: CreationRequest): (e: Option<Error>)
      reads playerService, playerService.players
      ensures playerService.ValidatePlayer(request.playerName).Err? ==>
        e == Some(playerService.ValidatePlayer(request.playerName).error)
      ensures playerService.ValidatePlayer(request.playerName).Ok? ==> e == ShipsError(catalog, request.shipsInfo)
    {
      match playerService.ValidatePlayer(request.playerName)
      case Err(err) => Some(err)
      case Ok(_) => ShipsError(catalog, request.shipsInfo)
    }

    /** The failure submission `i` meets once the earlier ones have passed:
        a player an earlier submission named is by then playing. */
    function RequestError(requests: seq<CreationRequest>, i: int): (e: Option<Error>)
      requires 0 <= i < |requests|
      reads playerService, playerService.players
    {
      if exists j :: 0 <= j < i && requests[j].playerName == requests[i].playerName
      then Some(PlayerAlreadyPlaying(requests[i].playerName))
      else SideError(requests[i])
    }

    /** The failure of the first submission from `i` on that fails. */
    function CreationError(requests: seq<CreationRequest>, i: int): (e: Option<Error>)
      requires 0 <= i <= |requests|
      reads playerService, playerService.players
      ensures e.None? <==> forall j :: i <= j < |requests| ==> RequestError(requests, j).None?
      ensures e.Some? ==> exists j :: i <= j < |requests| && RequestError(requests, j) == e &&
                                     forall j' :: i <= j' < j ==> RequestError(requests, j').None?
      decreases |requests| - i
    {
      if i == |requests| then None
      else if RequestError(requests, i).Some? then RequestError(requests, i)
      else CreationError(requests, i + 1)
    }

    /** No game has the same player on both sides: naming a player twice
        fails, with PLAYER_ALREADY_PLAYING when the first submission passes. */
    lemma SamePlayerTwice(requests: seq<CreationRequest>)
      requires |requests| == 2 && requests[0].playerName == requests[1].playerName
      ensures CreationError(requests, 0).Some?
      ensures SideError(requests[0]).None? ==>
        CreationError(requests, 0) == Some(PlayerAlreadyPlaying(requests[1].playerName))
    {
      assert RequestError(requests, 1) == Some(PlayerAlreadyPlaying(requests[1].playerName));
    }

    /** The player a submission names, as the repository finds it. */
    function Named(request: CreationRequest): (r: Player?)
      reads playerService
      ensures r != null ==> r.name == request.playerName
    {
      playerService.FetchPlayerByPlayerName(request.playerName)
    }

    /** createGame: exactly two submissions, each passing the player and
        fleet checks in turn, give a new ongoing game between their sides,
        the first side on turn, both players now playing. */
    method CreateGame(requests: seq<CreationRequest>, newGameId: Option<Uuid>) returns (r: Result<Uuid>)
      requires Valid()
      requires newGameId.Some? ==> newGameId.value !in games
      modifies this, set i | 0 <= i < |requests| :: Named(requests[i])
      ensures Valid()
      ensures |requests| != 2 ==>
        r == Err(InvalidPlayerCount) && unchanged(this) && unchanged(set i | 0 <= i < |requests| && Named(requests[i]) != null :: Named(requests[i]))
      ensures |requests| == 2 && old(CreationError(requests, 0)).Some? ==>
        r == Err(old(CreationError(requests, 0)).value)
      ensures |requests| == 2 && old(RequestError(requests, 0)).Some? ==>
        Unchanged() && NamedUnchanged(requests, 0) && NamedUnchanged(requests, 1)
      ensures |requests| == 2 && old(RequestError(requests, 0)).None? && old(RequestError(requests, 1)).Some? ==>
        var n := old(nextGamePlayerId);
        nextGamePlayerId == n + 1 && SavedSide(n, requests[0]) && fresh(gamePlayers[n]) &&
        gamePlayers == old(gamePlayers)[n := gamePlayers[n]] &&
        (old(Named(requests[1])) != old(Named(requests[0])) ==> NamedUnchanged(requests, 1))
      ensures |requests| == 2 && old(CreationError(requests, 0)).None? && newGameId.None? ==>
        var n := old(nextGamePlayerId);
        r == Err(GameNotCreated) && nextGamePlayerId == n + 2 &&
        SavedSide(n, requests[0]) && SavedSide(n + 1, requests[1]) &&
        fresh(gamePlayers[n]) && fresh(gamePlayers[n + 1]) &&
        gamePlayers == old(gamePlayers)[n := gamePlayers[n]][n + 1 := gamePlayers[n + 1]]
      ensures r.Err? ==> games == old(games)
      ensures r.Ok? ==>
        |requests| == 2 && old(CreationError(requests, 0)).None? && newGameId == Some(r.value) &&
        r.value in games && games == old(games)[r.value := games[r.value]] &&
        var g := games[r.value];
        fresh(g) && fresh(g.player1) && fresh(g.player2) && g.id == Some(r.value) &&
        g.currentPlayer == g.player1 && g.winner == null && g.status == Ongoing &&
        g.player1.player == old(Named(requests[0])) && g.player2.player == old(Named(requests[1])) &&
        g.player1.player != g.player2.player &&
        gamePlayers == old(gamePlayers)[old(nextGamePlayerId) := g.player1][old(nextGamePlayerId) + 1 := g.player2] &&
        SideMade(g.player1, requests[0], catalog) && SideMade(g.player2, requests[1], catalog)
    {
      if 2 != |requests| {
        return Err(InvalidPlayerCount);
      }
      var created := CreateSides(requests);
      if created.Err? {
        return Err(created.error);
      }
      var sides := created.value;
      var gameEntity := SaveGame(sides, newGameId, requests);
      if gameEntity.id.None? {
        return Err(GameNotCreated);
      }
      r := Ok(gameEntity.id.value);
    }

    /** The loop of createGame over its two submissions: one side per
        submission, in order, or the first failure. */
    method CreateSides(requests: seq<CreationRequest>) returns (r: Result<seq<GamePlayer>>)
      requires Valid() && |requests| == 2
      modifies this, Named(requests[0]), Named(requests[1])
      ensures Valid() && games == old(games) && old(Repr) <= Repr
      ensures r.Err? <==> old(CreationError(requests, 0)).Some?
      ensures r.Err? ==> r.error == old(CreationError(requests, 0)).value
      ensures r.Ok? ==>
        var sides, n := r.value, old(nextGamePlayerId);
        |sides| == 2 && nextGamePlayerId == n + 2 &&
        gamePlayers == old(gamePlayers)[n := sides[0]][n + 1 := sides[1]] &&
        StoredIn(sides[0], gamePlayers) && StoredIn(sides[1], gamePlayers) &&
        fresh(sides[0]) && fresh(sides[1]) && sides[0].player != sides[1].player &&
        SideClosed(sides[0], Repr) && SideClosed(sides[1], Repr) &&
        SideMade(sides[0], requests[0], catalog) && SideMade(sides[1], requests[1], catalog) &&
        sides[0].player == old(Named(requests[0])) && sides[1].player == old(Named(requests[1]))
      ensures r.Err? && old(RequestError(requests, 0)).Some? ==>
        Unchanged() && NamedUnchanged(requests, 0) && NamedUnchanged(requests, 1)
      ensures r.Err? && old(RequestError(requests, 0)).None? ==>
        var n := old(nextGamePlayerId);
        nextGamePlayerId == n + 1 && SavedSide(n, requests[0]) && fresh(gamePlayers[n]) &&
        gamePlayers == old(gamePlayers)[n := gamePlayers[n]] &&
        (old(Named(requests[1])) != old(Named(requests[0])) ==> NamedUnchanged(requests, 1))
    {
      var sides: seq<GamePlayer> := [];
      ghost var n, stored := nextGamePlayerId, gamePlayers;
      ghost var e0, e1 := RequestError(requests, 0), RequestError(requests, 1);
      ghost var named := [Named(requests[0]), Named(requests[1])];
      for i := 0 to |requests|
        invariant |sides| == i && nextGamePlayerId == n + i
        invariant Valid() && games == old(games) && old(Repr) <= Repr
        invariant i >= 1 ==> fresh(sides[0])
        invariant i == 2 ==> fresh(sides[1])
        invariant Named(requests[0]) == named[0] && Named(requests[1]) == named[1]
        invariant SidesSoFar(requests, sides, stored, n, e0, e1)
        invariant i == 0 ==> Unchanged() && NamedUnchanged(requests, 0)
        invariant i <= 1 && named[1] != named[0] ==> NamedUnchanged(requests, 1)
      {
        var created := AddSide(requests, sides, stored, n, e0, e1);
        if created.Err? {
          return Err(created.error);
        }
        sides := sides + [created.value];
      }
      r := Ok(sides);
    }

    /** The state of createGame's loop after it made `sides` from the first
        submissions: the sides are saved under consecutive ids from `n`, each
        is the side its submission describes for the player it names, and
        the players' checks of the submissions still to come (`e0`, `e1`
        from before the loop) are unaffected. */
    ghost predicate SidesSoFar(requests: seq<CreationRequest>, sides: seq<GamePlayer>, stored: map<int, GamePlayer>,
                               n: int, e0: Option<Error>, e1: Option<Error>)
      reads *
    {
      |requests| == 2 && |sides| <= 2 &&
      (|sides| == 0 ==> gamePlayers == stored && RequestError(requests, 0) == e0) &&
      (|sides| <= 1 ==> RequestError(requests, 1) == e1) &&
      (|sides| == 1 ==> gamePlayers == stored[n := sides[0]]) &&
      (|sides| == 2 ==> gamePlayers == stored[n := sides[0]][n + 1 := sides[1]] && sides[0].player != sides[1].player) &&
      (|sides| >= 1 ==>
        e0.None? && sides[0].id == Some(n) && sides[0].player == Named(requests[0]) &&
        SideClosed(sides[0], Repr) && SideMade(sides[0], requests[0], catalog)) &&
      (|sides| == 2 ==>
        e1.None? && sides[1].id == Some(n + 1) && sides[1].player == Named(requests[1]) &&
        SideClosed(sides[1], Repr) && SideMade(sides[1], requests[1], catalog))
    }

    /** The player submission `i` names, if any, keeps its flags. */
    twostate predicate NamedUnchanged(requests: seq<CreationRequest>, i: int)
      requires 0 <= i < |requests|
      reads *
    {
      var p := old(Named(requests[i]));
      p != null ==> p.isLocked == old(p.isLocked) && p.isPlaying == old(p.isPlaying)
    }

    /** The side saved under id `n` is made from `request` for the player it names. */
    ghost predicate SavedSide(n: int, request: CreationRequest)
      reads *
    {
      n in gamePlayers && gamePlayers[n].id == Some(n) && gamePlayers[n].player == Named(request) &&
      SideMade(gamePlayers[n], request, catalog)
    }

    /** The tables, the id counter and the footprint are as they were. */
    twostate predicate Unchanged()
      reads this
    {
      games == old(games) && gamePlayers == old(gamePlayers) &&
      nextGamePlayerId == old(nextGamePlayerId) && Repr == old(Repr)
    }

    /** One pass of createGame's loop, for the submission after the ones
        that made `sides`: its failure is the one the submission meets once
        the earlier one has passed. */
    method AddSide(requests: seq<CreationRequest>, sides: seq<GamePlayer>, ghost stored: map<int, GamePlayer>,
                   ghost n: int, ghost e0: Option<Error>, ghost e1: Option<Error>) returns (r: Result<GamePlayer>)
      requires Valid() && |requests| == 2 && |sides| < 2 && nextGamePlayerId == n + |sides|
      requires SidesSoFar(requests, sides, stored, n, e0, e1)
      modifies this, Named(requests[|sides|])
      ensures Valid() && games == old(games) && old(Repr) <= Repr
      ensures var e := if |sides| == 0 then e0 else e1;
        (r.Err? <==> e.Some?) && (r.Err? ==> r.error == e.value)
      ensures r.Err? ==> Unchanged() && NamedUnchanged(requests, |sides|)
      ensures r.Err? && |sides| == 1 ==> SidesSoFar(requests, sides, stored, n, e0, e1)
      ensures r.Ok? ==>
        fresh(r.value) && nextGamePlayerId == n + |sides| + 1 &&
        SidesSoFar(requests, sides + [r.value], stored, n, e0, e1)
    {
      if |sides| == 0 {
        r := AddFirstSide(requests, sides, stored, n, e0, e1);
      } else {
        r := AddSecondSide(requests, sides, stored, n, e0, e1);
      }
    }

    /** The first pass of createGame's loop. The player of the second
        submission, when it is another one, keeps its flags. */
    method AddFirstSide(requests: seq<CreationRequest>, sides: seq<GamePlayer>, ghost stored: map<int, GamePlayer>,
                        ghost n: int, ghost e0: Option<Error>, ghost e1: Option<Error>) returns (r: Result<GamePlayer>)
      requires Valid() && |requests| == 2 && |sides| == 0 && nextGamePlayerId == n
      requires SidesSoFar(requests, sides, stored, n, e0, e1)
      modifies this, Named(requests[0])
      ensures Valid() && games == old(games) && old(Repr) <= Repr
      ensures (r.Err? <==> e0.Some?) && (r.Err? ==> r.error == e0.value)
      ensures r.Err? ==> Unchanged() && NamedUnchanged(requests, 0)
      ensures r.Ok? ==>
        fresh(r.value) && nextGamePlayerId == n + 1 && SidesSoFar(requests, sides + [r.value], stored, n, e0, e1)
    {
      var name := requests[0].playerName;
      assert RequestError(requests, 0) == SideError(requests[0]);
      r := CreateSide(requests[0]);
      if r.Err? {
        return;
      }
      var other := requests[1].playerName;
      if name != other {
        assert playerService.ValidatePlayer(other) == old(playerService.ValidatePlayer(other));
      }
      assert RequestError(requests, 1) == e1;
    }

    /** The second pass of createGame's loop, after the pass that made the
        side in `sides`: a player the first submission named is by then playing. */
    method AddSecondSide(requests: seq<CreationRequest>, sides: seq<GamePlayer>, ghost stored: map<int, GamePlayer>,
                         ghost n: int, ghost e0: Option<Error>, ghost e1: Option<Error>) returns (r: Result<GamePlayer>)
      requires Valid() && |requests| == 2 && |sides| == 1 && nextGamePlayerId == n + 1
      requires SidesSoFar(requests, sides, stored, n, e0, e1)
      modifies this, Named(requests[1])
      ensures Valid() && games == old(games) && old(Repr) <= Repr
      ensures (r.Err? <==> e1.Some?) && (r.Err? ==> r.error == e1.value)
      ensures r.Err? ==> Unchanged() && NamedUnchanged(requests, 1)
      ensures r.Err? ==> SidesSoFar(requests, sides, stored, n, e0, e1)
      ensures r.Ok? ==>
        fresh(r.value) && nextGamePlayerId == n + 2 && SidesSoFar(requests, sides + [r.value], stored, n, e0, e1)
    {
      var first := sides[0];
      var name := requests[1].playerName;
      if requests[0].playerName == name {
        assert Named(requests[1]) == first.player;
        assert playerService.ValidatePlayer(name) == Err(PlayerAlreadyPlaying(name));
      }
      assert RequestError(requests, 1) == SideError(requests[1]);
      ghost var repr := Repr;
      r := CreateSide(requests[1]);
      if r.Err? {
        return;
      }
      SideClosedGrows(first, repr, Repr);
    }

    /** One pass of createGame's loop: validate the player, build a side for
        it, mark the player as playing, and save the side under the next id. */
    method CreateSide(request: CreationRequest) returns (r: Result<GamePlayer>)
      requires Valid()
      modifies this, playerService.FetchPlayerByPlayerName(request.playerName)
      ensures Valid() && games == old(games) && old(Repr) <= Repr
      ensures r.Err? <==> old(SideError(request)).Some?
      ensures var found := old(playerService.FetchPlayerByPlayerName(request.playerName));
        r.Err? ==> r.error == old(SideError(request)).value && unchanged(this) && (found != null ==> unchanged(found))
      ensures r.Ok? ==>
        var gp := r.value;
        fresh(gp) && gp.player == old(Named(request)) &&
        gp.id == Some(old(nextGamePlayerId)) && gamePlayers == old(gamePlayers)[old(nextGamePlayerId) := gp] &&
        nextGamePlayerId == old(nextGamePlayerId) + 1 &&
        SideClosed(gp, Repr) && SideMade(gp, request, catalog)
    {
      var validated := playerService.ValidatePlayer(request.playerName);
      if validated.Err? {
        return Err(validated.error);
      }
      var player := validated.value;
      r := BuildSide(request, player);
      if r.Err? {
        return;
      }
      ghost var ships, board := r.value.ships, r.value.board;
      assert FleetBuilt(r.value, ships, board, request, catalog) && Linked(board, ships);
      SaveSide(r.value);
      assert SideMade(r.value, request, catalog);
    }

    /** populateGamePlayer, validateAndPopulateGameShip and populateGameBoard
        for one submission: a new side of `player` with its fleet and board. */
    method BuildSide(request: CreationRequest, player: Player) returns (r: Result<GamePlayer>)
      ensures r.Err? <==> ShipsError(catalog, request.shipsInfo).Some?
      ensures r.Err? ==> r.error == ShipsError(catalog, request.shipsInfo).value
      ensures r.Ok? ==>
        fresh(r.value) && r.value.player == player && r.value.id == None &&
        BoardLinked(r.value) && SideBuilt(r.value, request, catalog)
    {
      var gamePlayer := new GamePlayer(player);
      var gameShips := ValidateAndPopulateGameShip(request.shipsInfo, gamePlayer);
      if gameShips.Err? {
        return Err(gameShips.error);
      }
      assert gamePlayer.ships == gameShips.value;
      var gameBoard := PopulateGameBoard(request, gameShips.value, gamePlayer);
      r := Ok(gamePlayer);
    }

    /** The populateGameBoard step of createGame: the board of a side whose
        fleet was just built from the same submission. */
    method PopulateGameBoard(request: CreationRequest, gameShips: seq<GameShip>, gamePlayer: GamePlayer)
      returns (gameBoard: seq<Cell>)
      requires gamePlayer.board == [] && gamePlayer.ships == gameShips && |gameShips| == |request.shipsInfo|
      requires forall j :: 0 <= j < |gameShips| ==> GetShipByShipId(catalog, request.shipsInfo[j].shipId) == Ok(gameShips[j].ship)
      requires forall s :: s in gameShips ==> s.status == NotSunk && s.gamePlayer == gamePlayer && s.cells == []
      modifies gamePlayer`board, set s | s in gameShips
      ensures gameBoard == [] && gamePlayer.ships == gameShips
      ensures SideBuilt(gamePlayer, request, catalog) && BoardLinked(gamePlayer)
    {
      gameBoard := Board.PopulateGameBoard(request, gameShips, gamePlayer);
      assert gamePlayer.board[0..] == gamePlayer.board;
      BoardMakesSide(gamePlayer, request, catalog, gameShips);
    }

    /** The end of the pass: the player is marked as playing and the side
        is saved (gamePlayerRepository.save), getting the next id. */
    method SaveSide(gp: GamePlayer)
      requires Valid() && gp !in Repr
      modifies this, gp, gp.player
      ensures Valid() && games == old(games) && old(Repr) <= Repr
      ensures gp.player.isPlaying && gp.player.isLocked == old(gp.player.isLocked)
      ensures gp.id == Some(old(nextGamePlayerId)) && gp.ships == old(gp.ships) && gp.board == old(gp.board)
      ensures gamePlayers == old(gamePlayers)[old(nextGamePlayerId) := gp]
      ensures nextGamePlayerId == old(nextGamePlayerId) + 1
      ensures SideClosed(gp, Repr)
    {
      gp.player.isPlaying := true;
      gp.id := Some(nextGamePlayerId);
      StoreSide(gp);
      SideAdded(gp);
    }

    /** The table writes of gamePlayerRepository.save. */
    method StoreSide(gp: GamePlayer)
      modifies this
      ensures games == old(games) && gamePlayers == old(gamePlayers)[old(nextGamePlayerId) := gp]
      ensures nextGamePlayerId == old(nextGamePlayerId) + 1
      ensures Repr == old(Repr) + {gp} + (set c | c in gp.board) + (set s | s in gp.ships)
    {
      gamePlayers := gamePlayers[nextGamePlayerId := gp];
      nextGamePlayerId := nextGamePlayerId + 1;
      Repr := Repr + {gp} + (set c | c in gp.board) + (set s | s in gp.ships);
    }

    /** populateGame: a new game between the first two sides, the first on
        turn, ongoing and without a winner, saved under the id the repository
        assigns (`newGameId`; None when it assigns none). */
    method PopulateGame(sides: seq<GamePlayer>, newGameId: Option<Uuid>) returns (g: Game)
      requires |sides| >= 2
      modifies this
      ensures fresh(g) && g.player1 == sides[0] && g.player2 == sides[1] && g.currentPlayer == sides[0]
      ensures g.status == Ongoing && g.winner == null && g.id == newGameId
      ensures newGameId.Some? ==> games == old(games)[newGameId.value := g] && Repr == old(Repr) + {g}
      ensures newGameId.None? ==> unchanged(this)
      ensures gamePlayers == old(gamePlayers) && nextGamePlayerId == old(nextGamePlayerId)
    {
      g := new Game(sides[0], sides[1]);
      g.id := newGameId;
      if newGameId.Some? {
        games := games[newGameId.value := g];
        Repr := Repr + {g};
      }
    }

    /** populateGame on the two sides createGame saved, together with the
        proof that the tables stay valid. */
    method SaveGame(sides: seq<GamePlayer>, newGameId: Option<Uuid>, ghost requests: seq<CreationRequest>)
      returns (g: Game)
      requires Valid() && |sides| == 2 && |requests| == 2 && sides[0] != sides[1]
      requires newGameId.Some? ==> newGameId.value !in games
      requires SideClosed(sides[0], Repr) && StoredIn(sides[0], gamePlayers) && SideMade(sides[0], requests[0], catalog)
      requires SideClosed(sides[1], Repr) && StoredIn(sides[1], gamePlayers) && SideMade(sides[1], requests[1], catalog)
      modifies this
      ensures Valid()
      ensures fresh(g) && g.player1 == sides[0] && g.player2 == sides[1] && g.currentPlayer == sides[0]
      ensures g.status == Ongoing && g.winner == null && g.id == newGameId
      ensures newGameId.Some? ==> games == old(games)[newGameId.value := g]
      ensures newGameId.None? ==> unchanged(this)
      ensures gamePlayers == old(gamePlayers) && nextGamePlayerId == old(nextGamePlayerId)
      ensures SideMade(sides[0], requests[0], catalog) && SideMade(sides[1], requests[1], catalog)
    {
      assert BoardLinked(sides[0]) && BoardLinked(sides[1]);
      g := PopulateGame(sides, newGameId);
      if newGameId.Some? {
        GameStored(g);
      }
    }

    /** Storing a new valid game between two saved sides keeps the tables
        valid when nothing stored before has changed. */
    twostate lemma GameStored(new g: Game)
      requires old(Valid()) && g.id.Some? && g !in old(Repr)
      requires games == old(games)[g.id.value := g] && Repr == old(Repr) + {g}
      requires gamePlayers == old(gamePlayers) && nextGamePlayerId == old(nextGamePlayerId)
      requires forall h: Game :: h in old(Repr) ==> unchanged(h)
      requires forall p: GamePlayer :: p in old(Repr) ==> unchanged(p)
      requires forall c: Cell :: c in old(Repr) ==> unchanged(c)
      requires forall s: GameShip :: s in old(Repr) ==> unchanged(s)
      requires GameOk(g.id.value, g) && SideClosed(g.player1, Repr) && SideClosed(g.player2, Repr)
      requires StoredIn(g.player1, gamePlayers) && StoredIn(g.player2, gamePlayers)
      requires BoardLinked(g.player1) && BoardLinked(g.player2)
      ensures Valid()
    {
      forall k | k in games && games[k] != g
        ensures SideClosed(games[k].player1, Repr) && SideClosed(games[k].player2, Repr)
        ensures Entry(k, games[k], gamePlayers)
      {
        var h := games[k];
        assert k in old(games);
        assert old(Entry(k, h, gamePlayers));
        assert h in old(Repr) && h.player1 in old(Repr) && h.player2 in old(Repr);
        assert unchanged(h) && unchanged(h.player1) && unchanged(h.player2);
        assert forall i :: 0 <= i < |h.player1.ships| ==> unchanged(h.player1.ships[i]);
        assert forall i :: 0 <= i < |h.player2.ships| ==> unchanged(h.player2.ships[i]);
        assert forall i :: 0 <= i < |h.player1.board| ==> unchanged(h.player1.board[i]);
        assert forall i :: 0 <= i < |h.player2.board| ==> unchanged(h.player2.board[i]);
      }
      assert Entry(g.id.value, g, gamePlayers);
    }

    /** Saving a new side under the next id keeps the tables valid when
        nothing stored before has changed. */
    twostate lemma SideAdded(gp: GamePlayer)
      requires old(Valid()) && games == old(games) && old(Repr) <= Repr
      requires gamePlayers == old(gamePlayers)[old(nextGamePlayerId) := gp]
      requires nextGamePlayerId == old(nextGamePlayerId) + 1
      requires gp in Repr && gp.id == Some(old(nextGamePlayerId))
      requires forall h: Game :: h in old(Repr) ==> unchanged(h)
      requires forall p: GamePlayer :: p in old(Repr) ==> unchanged(p)
      requires forall c: Cell :: c in old(Repr) ==> unchanged(c)
      requires forall s: GameShip :: s in old(Repr) ==> unchanged(s)
      ensures Valid()
    {
      forall k | k in games
        ensures SideClosed(games[k].player1, Repr) && SideClosed(games[k].player2, Repr)
        ensures Entry(k, games[k], gamePlayers)
      {
        var h := games[k];
        assert old(Entry(k, h, gamePlayers));
        assert h in old(Repr) && h.player1 in old(Repr) && h.player2 in old(Repr);
        assert unchanged(h) && unchanged(h.player1) && unchanged(h.player2);
        assert forall i :: 0 <= i < |h.player1.ships| ==> unchanged(h.player1.ships[i]);
        assert forall i :: 0 <= i < |h.player2.ships| ==> unchanged(h.player2.ships[i]);
        assert forall i :: 0 <= i < |h.player1.board| ==> unchanged(h.player1.board[i]);
        assert forall i :: 0 <= i < |h.player2.board| ==> unchanged(h.player2.board[i]);
      }
    }
  }
}
