/** GameShipService: the ship catalog lookups, the placement checks run
    before a game is created, and the sinking of a hit ship. */
module Ships {
  import opened Types
  import opened Entities

  // ---- catalog ----

  /** ShipDTO: what the catalog listing shows of a ship. */
  datatype ShipInfo = ShipInfo(shipId: int, shipName: string, shipLength: int32)

  /** The catalog is keyed by ship id (the primary key of the ship table). */
  predicate CatalogValid(catalog: seq<ShipTemplate>)
  {
    forall i, j :: 0 <= i < j < |catalog| ==> catalog[i].shipId != catalog[j].shipId
  }

  /** getShips: one entry per catalog ship, in catalog order. */
  function GetShips(catalog: seq<ShipTemplate>): (r: seq<ShipInfo>)
    ensures |r| == |catalog|
    ensures forall i :: 0 <= i < |r| ==>
      r[i].shipId == catalog[i].shipId && r[i].shipName == catalog[i].shipName && r[i].shipLength == catalog[i].shipLength
  {
    if |catalog| == 0 then []
    else [ShipInfo(catalog[0].shipId, catalog[0].shipName, catalog[0].shipLength)] + GetShips(catalog[1..])
  }

  /** getShipByShipId: the catalog entry with the id, or the "does not exists" failure. */
  function GetShipByShipId(catalog: seq<ShipTemplate>, shipId: int): (r: Result<ShipTemplate>)
    ensures r.Ok? ==> r.value in catalog && r.value.shipId == shipId
    ensures r.Err? <==> forall t :: t in catalog ==> t.shipId != shipId
    ensures r.Err? ==> r.error == ShipIdNotFound(shipId)
  {
    if |catalog| == 0 then Err(ShipIdNotFound(shipId))
    else if catalog[0].shipId == shipId then Ok(catalog[0])
    else GetShipByShipId(catalog[1..], shipId)
  }

  /** In a catalog keyed by id, the lookup finds exactly the entry with that id. */
  lemma {:induction false} GetShipByShipIdFinds(catalog: seq<ShipTemplate>, i: int)
    requires CatalogValid(catalog) && 0 <= i < |catalog|
    ensures GetShipByShipId(catalog, catalog[i].shipId) == Ok(catalog[i])
  {
    if i > 0 {
      assert catalog[0].shipId != catalog[i].shipId;
      assert CatalogValid(catalog[1..]) by {
        forall a, b | 0 <= a < b < |catalog| - 1
          ensures catalog[1..][a].shipId != catalog[1..][b].shipId
        {
          assert catalog[1..][a] == catalog[a + 1] && catalog[1..][b] == catalog[b + 1];
        }
      }
      GetShipByShipIdFinds(catalog[1..], i - 1);
    }
  }

  /** validateShip: no coordinates, then unknown id, then a length mismatch. */
  function ValidateShip(catalog: seq<ShipTemplate>, shipId: int, size: nat): (r: Outcome)
    ensures size == 0 ==> r == Fail(ShipIdNotProvided(shipId))
    ensures size != 0 && (forall t :: t in catalog ==> t.shipId != shipId) ==> r == Fail(ShipIdNotFound(shipId))
    ensures size != 0 && GetShipByShipId(catalog, shipId).Ok? && GetShipByShipId(catalog, shipId).value.shipLength as int != size
            ==> r == Fail(ShipLengthMismatch(shipId))
    ensures r.Pass? ==> exists t :: t in catalog && t.shipId == shipId && t.shipLength as int == size
  {
    if size == 0 then Fail(ShipIdNotProvided(shipId))
    else
      var t := GetShipByShipId(catalog, shipId);
      if t.Err? then Fail(t.error)
      else if size != t.value.shipLength as int then Fail(ShipLengthMismatch(shipId))
      else Pass
  }

  /** In a catalog keyed by id, a ship passes exactly when it has coordinates
      and as many of them as its catalog length. */
  lemma ValidateShipAccepts(catalog: seq<ShipTemplate>, i: int, size: nat)
    requires CatalogValid(catalog) && 0 <= i < |catalog|
    ensures ValidateShip(catalog, catalog[i].shipId, size).Pass? <==> size != 0 && catalog[i].shipLength as int == size
  {
    GetShipByShipIdFinds(catalog, i);
  }

  // ---- straightness of one ship (areAdjacent) ----

  /** A coordinate with row or column -1 is the loop's "no previous" sentinel,
      so the step after it is not checked. */
  predicate Guarded(p: Location)
  {
    p.row != -1 && p.col != -1
  }

  /** The horizontal test of one step, with Java int subtraction and Math.abs. */
  predicate HorizontalStep(p: Location, q: Location)
  {
    Guarded(p) ==> q.row == p.row && JavaAbs(JavaSub(q.col, p.col)) <= 1
  }

  predicate VerticalStep(p: Location, q: Location)
  {
    Guarded(p) ==> q.col == p.col && JavaAbs(JavaSub(q.row, p.row)) <= 1
  }

  /** Every step of the prefix, in submitted order, passes the horizontal test. */
  predicate IsHorizontal(locs: seq<Location>)
    decreases |locs|
  {
    |locs| < 2 || (IsHorizontal(locs[..|locs| - 1]) && HorizontalStep(locs[|locs| - 2], locs[|locs| - 1]))
  }

  predicate IsVertical(locs: seq<Location>)
    decreases |locs|
  {
    |locs| < 2 || (IsVertical(locs[..|locs| - 1]) && VerticalStep(locs[|locs| - 2], locs[|locs| - 1]))
  }

  predicate Straight(locs: seq<Location>)
  {
    IsHorizontal(locs) || IsVertical(locs)
  }

  /** areAdjacent: the ship passes when all its steps are horizontal or all are vertical. */
  method AreAdjacent(locations: seq<Location>) returns (r: bool)
    ensures r == Straight(locations)
  {
    var isHorizontal := true;
    var isVertical := true;
    var prevRow: int32 := -1;
    var prevCol: int32 := -1;
    for i := 0 to |locations|
      invariant isHorizontal == IsHorizontal(locations[..i])
      invariant isVertical == IsVertical(locations[..i])
      invariant i == 0 ==> prevRow == -1 && prevCol == -1
      invariant i > 0 ==> prevRow == locations[i - 1].row && prevCol == locations[i - 1].col
    {
      var row := locations[i].row;
      var col := locations[i].col;
      assert locations[..i + 1][..i] == locations[..i];
      if prevRow != -1 && prevCol != -1 {
        if row != prevRow || JavaAbs(JavaSub(col, prevCol)) > 1 {
          isHorizontal := false;
        }
        if col != prevCol || JavaAbs(JavaSub(row, prevRow)) > 1 {
          isVertical := false;
        }
      }
      prevRow := row;
      prevCol := col;
    }
    assert locations[..|locations|] == locations;
    r := isHorizontal || isVertical;
  }

  /** The prefix-by-prefix definition is the same as "every consecutive pair passes". */
  lemma {:induction false} IsHorizontalPairwise(locs: seq<Location>)
    ensures IsHorizontal(locs) <==> forall i :: 1 <= i < |locs| ==> HorizontalStep(locs[i - 1], locs[i])
    decreases |locs|
  {
    if |locs| >= 2 {
      var front := locs[..|locs| - 1];
      IsHorizontalPairwise(front);
      assert forall i :: 0 <= i < |front| ==> front[i] == locs[i];
    }
  }

  lemma {:induction false} IsVerticalPairwise(locs: seq<Location>)
    ensures IsVertical(locs) <==> forall i :: 1 <= i < |locs| ==> VerticalStep(locs[i - 1], locs[i])
    decreases |locs|
  {
    if |locs| >= 2 {
      var front := locs[..|locs| - 1];
      IsVerticalPairwise(front);
      assert forall i :: 0 <= i < |front| ==> front[i] == locs[i];
    }
  }

  predicate OnBoard(l: Location)
  {
    0 <= l.row as int < GRID_VALUE && 0 <= l.col as int < GRID_VALUE
  }

  /** On the board the Java arithmetic is exact and no coordinate is the
      sentinel: a step passes when it stays in the line and moves by at most one,
      so a step of zero passes too. */
  lemma StepOnBoard(p: Location, q: Location)
    requires OnBoard(p) && OnBoard(q)
    ensures HorizontalStep(p, q) <==> q.row == p.row && -1 <= q.col as int - p.col as int <= 1
    ensures VerticalStep(p, q) <==> q.col == p.col && -1 <= q.row as int - p.row as int <= 1
  {
    JavaDistanceExact(q.col, p.col);
    JavaDistanceExact(q.row, p.row);
  }

  /** A run of cells along one row, one column apart in submitted order, is a straight ship. */
  lemma RowRunIsStraight(locs: seq<Location>)
    requires forall i :: 0 <= i < |locs| ==> OnBoard(locs[i])
    requires forall i :: 1 <= i < |locs| ==> locs[i].row == locs[0].row && locs[i].col as int == locs[i - 1].col as int + 1
    ensures Straight(locs)
  {
    forall i | 1 <= i < |locs|
      ensures HorizontalStep(locs[i - 1], locs[i])
    {
      StepOnBoard(locs[i - 1], locs[i]);
    }
    IsHorizontalPairwise(locs);
  }

  /** A run of cells down one column, one row apart in submitted order, is a straight ship. */
  lemma ColumnRunIsStraight(locs: seq<Location>)
    requires forall i :: 0 <= i < |locs| ==> OnBoard(locs[i])
    requires forall i :: 1 <= i < |locs| ==> locs[i].col == locs[0].col && locs[i].row as int == locs[i - 1].row as int + 1
    ensures Straight(locs)
  {
    forall i | 1 <= i < |locs|
      ensures VerticalStep(locs[i - 1], locs[i])
    {
      StepOnBoard(locs[i - 1], locs[i]);
    }
    IsVerticalPairwise(locs);
  }

  /** Ships of zero or one coordinate always pass. */
  lemma ShortShipIsStraight(locs: seq<Location>)
    requires |locs| < 2
    ensures Straight(locs)
  {
  }

  /** A gap of two rows fails the vertical test, and changing row fails the
      horizontal one: (0,0),(2,0),(3,0) is rejected. */
  lemma GapIsNotStraight()
    ensures !Straight([Location(0, 0), Location(2, 0), Location(3, 0)])
  {
    var locs := [Location(0, 0), Location(2, 0), Location(3, 0)];
    IsHorizontalPairwise(locs);
    IsVerticalPairwise(locs);
    assert !HorizontalStep(locs[0], locs[1]);
    assert !VerticalStep(locs[0], locs[1]);
  }

  /** Order matters: the same three cells of a row submitted out of order are rejected. */
  lemma OutOfOrderRowIsNotStraight()
    ensures !Straight([Location(0, 0), Location(0, 2), Location(0, 1)])
  {
    var locs := [Location(0, 0), Location(0, 2), Location(0, 1)];
    IsHorizontalPairwise(locs);
    IsVerticalPairwise(locs);
    assert !HorizontalStep(locs[0], locs[1]);
    assert !VerticalStep(locs[0], locs[1]);
  }

  /** A repeated coordinate is a step of zero and passes this check. */
  lemma RepeatedCellIsStraight()
    ensures Straight([Location(4, 4), Location(4, 4)])
  {
    StepOnBoard(Location(4, 4), Location(4, 4));
  }

  /** After a coordinate with row -1 the next step is not checked at all. */
  lemma SentinelSkipsCheck()
    ensures Straight([Location(-1, 0), Location(7, 9)])
  {
  }

  /** Math.abs of the wrapped difference 0 - MIN_VALUE is negative, so a jump
      from column 0 to column MIN_VALUE passes the horizontal test. */
  lemma WrappedDistancePasses()
    ensures Straight([Location(0, 0), Location(0, -0x8000_0000)])
  {
    JavaDistanceAtMinimum();
  }

  // ---- overlap across all ships (areShipLocationsOverlapping) ----

  /** Every submitted coordinate, ship by ship, in submitted order. */
  function AllLocations(ships: seq<ShipRequest>): seq<Location>
    decreases |ships|
  {
    if |ships| == 0 then [] else AllLocations(ships[..|ships| - 1]) + ships[|ships| - 1].locations
  }

  predicate HasRepeat(s: seq<Location>)
  {
    exists i, j :: 0 <= i < j < |s| && s[i] == s[j]
  }

  function Keys(s: seq<Location>): set<string>
  {
    set l | l in s :: GridKey(l)
  }

  lemma {:induction false} AllLocationsPrefix(ships: seq<ShipRequest>, k: int)
    requires 0 <= k <= |ships|
    ensures AllLocations(ships[..k]) <= AllLocations(ships)
    decreases |ships|
  {
    if k < |ships| {
      var front := ships[..|ships| - 1];
      assert front[..k] == ships[..k];
      AllLocationsPrefix(front, k);
    } else {
      assert ships[..k] == ships;
    }
  }

  lemma RepeatInPrefix(p: seq<Location>, s: seq<Location>)
    requires p <= s && HasRepeat(p)
    ensures HasRepeat(s)
  {
    var i, j :| 0 <= i < j < |p| && p[i] == p[j];
    assert s[i] == s[j];
  }

  lemma NoRepeatExtend(s: seq<Location>, x: Location)
    requires !HasRepeat(s) && x !in s
    ensures !HasRepeat(s + [x])
  {
    var t := s + [x];
    forall i, j | 0 <= i < j < |t|
      ensures t[i] != t[j]
    {
      if j == |s| {
        assert t[i] == s[i];
      } else {
        assert t[i] == s[i] && t[j] == s[j];
      }
    }
  }

  lemma PrefixExtend(a: seq<Location>, b: seq<Location>, j: int)
    requires 0 <= j < |b|
    ensures a + b[..j + 1] == (a + b[..j]) + [b[j]]
  {
    assert b[..j + 1] == b[..j] + [b[j]];
  }

  /** The key set tracks the coordinates seen: a key is present exactly when
      its coordinate is, and adding a coordinate adds its key. */
  lemma KeysStep(seen: seq<Location>, x: Location)
    ensures GridKey(x) in Keys(seen) <==> x in seen
    ensures Keys(seen + [x]) == Keys(seen) + {GridKey(x)}
  {
    forall l | l in seen
      ensures GridKey(l) == GridKey(x) <==> l == x
    {
      GridKeyInjective(l, x);
    }
  }

  /** A coordinate of ship `i` already seen among the earlier coordinates is an overlap. */
  lemma {:induction false} SeenAgainOverlaps(shipsInfo: seq<ShipRequest>, i: int, j: int)
    requires 0 <= i < |shipsInfo| && 0 <= j < |shipsInfo[i].locations|
    requires shipsInfo[i].locations[j] in AllLocations(shipsInfo[..i]) + shipsInfo[i].locations[..j]
    ensures HasRepeat(AllLocations(shipsInfo))
  {
    var locs := shipsInfo[i].locations;
    var seen := AllLocations(shipsInfo[..i]) + locs[..j];
    var t := seen + [locs[j]];
    var i0 :| 0 <= i0 < |seen| && seen[i0] == locs[j];
    assert t[i0] == t[|seen|];
    assert shipsInfo[..i + 1][..i] == shipsInfo[..i];
    assert t <= AllLocations(shipsInfo[..i + 1]);
    AllLocationsPrefix(shipsInfo, i + 1);
    RepeatInPrefix(t, AllLocations(shipsInfo));
  }

  /** areShipLocationsOverlapping: true exactly when some coordinate occurs twice. */
  method AreShipLocationsOverlapping(shipsInfo: seq<ShipRequest>) returns (r: bool)
    ensures r == HasRepeat(AllLocations(shipsInfo))
  {
    var visitedGridCells: set<string> := {};
    for i := 0 to |shipsInfo|
      invariant visitedGridCells == Keys(AllLocations(shipsInfo[..i]))
      invariant !HasRepeat(AllLocations(shipsInfo[..i]))
    {
      var locs := shipsInfo[i].locations;
      ghost var before := AllLocations(shipsInfo[..i]);
      for j := 0 to |locs|
        invariant visitedGridCells == Keys(before + locs[..j])
        invariant !HasRepeat(before + locs[..j])
      {
        var gridCell := GridKey(locs[j]);
        ghost var seen := before + locs[..j];
        KeysStep(seen, locs[j]);
        if gridCell in visitedGridCells {
          SeenAgainOverlaps(shipsInfo, i, j);
          return true;
        }
        NoRepeatExtend(seen, locs[j]);
        PrefixExtend(before, locs, j);
        visitedGridCells := visitedGridCells + {gridCell};
      }
      assert shipsInfo[..i + 1][..i] == shipsInfo[..i];
      assert locs[..|locs|] == locs;
    }
    assert shipsInfo[..|shipsInfo|] == shipsInfo;
    r := false;
  }

  /** A coordinate listed twice by one ship is an overlap. */
  lemma RepeatWithinShipOverlaps(ships: seq<ShipRequest>, k: int, a: int, b: int)
    requires 0 <= k < |ships|
    requires 0 <= a < b < |ships[k].locations| && ships[k].locations[a] == ships[k].locations[b]
    ensures HasRepeat(AllLocations(ships))
  {
    var before := AllLocations(ships[..k]);
    assert ships[..k + 1][..k] == ships[..k];
    var p := AllLocations(ships[..k + 1]);
    assert p == before + ships[k].locations;
    assert p[|before| + a] == p[|before| + b];
    AllLocationsPrefix(ships, k + 1);
    RepeatInPrefix(p, AllLocations(ships));
  }

  lemma {:induction false} InAllLocations(ships: seq<ShipRequest>, k: int, l: Location)
    requires 0 <= k < |ships| && l in ships[k].locations
    ensures |AllLocations(ships[..k + 1])| <= |AllLocations(ships)|
    ensures exists i :: |AllLocations(ships[..k])| <= i < |AllLocations(ships[..k + 1])| && AllLocations(ships)[i] == l
  {
    var before := AllLocations(ships[..k]);
    assert ships[..k + 1][..k] == ships[..k];
    var p := AllLocations(ships[..k + 1]);
    assert p == before + ships[k].locations;
    var a :| 0 <= a < |ships[k].locations| && ships[k].locations[a] == l;
    AllLocationsPrefix(ships, k + 1);
    assert AllLocations(ships)[|before| + a] == p[|before| + a] == l;
  }

  /** A coordinate shared by two different ships is an overlap. */
  lemma SharedCellOverlaps(ships: seq<ShipRequest>, k1: int, k2: int, l: Location)
    requires 0 <= k1 < k2 < |ships|
    requires l in ships[k1].locations && l in ships[k2].locations
    ensures HasRepeat(AllLocations(ships))
  {
    InAllLocations(ships, k1, l);
    InAllLocations(ships, k2, l);
    var i1 :| |AllLocations(ships[..k1])| <= i1 < |AllLocations(ships[..k1 + 1])| && AllLocations(ships)[i1] == l;
    var i2 :| |AllLocations(ships[..k2])| <= i2 < |AllLocations(ships[..k2 + 1])| && AllLocations(ships)[i2] == l;
    assert ships[..k2][..k1 + 1] == ships[..k1 + 1];
    AllLocationsPrefix(ships[..k2], k1 + 1);
    assert i1 < i2;
  }

  // ---- the combined placement check ----

  /** areShipLocationsNotAdjacent: true exactly when some ship is not straight. */
  method AreShipLocationsNotAdjacent(shipsInfo: seq<ShipRequest>) returns (r: bool)
    ensures r <==> exists k :: 0 <= k < |shipsInfo| && !Straight(shipsInfo[k].locations)
  {
    for i := 0 to |shipsInfo|
      invariant forall k :: 0 <= k < i ==> Straight(shipsInfo[k].locations)
    {
      var adjacent := AreAdjacent(shipsInfo[i].locations);
      if !adjacent {
        return true;
      }
    }
    r := false;
  }

  /** A placement that validateGameShipGrids lets through. */
  predicate PlacementValid(shipsInfo: seq<ShipRequest>)
  {
    !HasRepeat(AllLocations(shipsInfo)) && forall k :: 0 <= k < |shipsInfo| ==> Straight(shipsInfo[k].locations)
  }

  /** validateGameShipGrids: overlap is reported first, then a bent ship. */
  method ValidateGameShipGrids(shipsInfo: seq<ShipRequest>) returns (r: Outcome)
    ensures HasRepeat(AllLocations(shipsInfo)) ==> r == Fail(ShipsOverlapping)
    ensures !HasRepeat(AllLocations(shipsInfo)) && (exists k :: 0 <= k < |shipsInfo| && !Straight(shipsInfo[k].locations))
            ==> r == Fail(ShipsNotAdjacent)
    ensures r == Pass <==> PlacementValid(shipsInfo)
  {
    var overlapping := AreShipLocationsOverlapping(shipsInfo);
    if overlapping {
      return Fail(ShipsOverlapping);
    }
    var notAdjacent := AreShipLocationsNotAdjacent(shipsInfo);
    if notAdjacent {
      return Fail(ShipsNotAdjacent);
    }
    r := Pass;
  }

  // ---- game ships ----

  /** mapToGameShipEntity: a new NOT_SUNK ship of the catalog entry, appended to
      the side's fleet. A failed lookup is swallowed by the source, leaving an
      entity that nothing refers to; here it is null and the fleet is unchanged. */
  method MapToGameShipEntity(catalog: seq<ShipTemplate>, shipId: int, gamePlayer: GamePlayer) returns (s: GameShip?)
    modifies gamePlayer`ships
    ensures GetShipByShipId(catalog, shipId).Err? ==> s == null && gamePlayer.ships == old(gamePlayer.ships)
    ensures GetShipByShipId(catalog, shipId).Ok? ==>
      s != null && fresh(s) && s.ship == GetShipByShipId(catalog, shipId).value &&
      s.status == NotSunk && s.gamePlayer == gamePlayer && s.cells == [] &&
      gamePlayer.ships == old(gamePlayer.ships) + [s]
  {
    var template := GetShipByShipId(catalog, shipId);
    if template.Err? {
      return null;
    }
    s := new GameShip(template.value, NotSunk, gamePlayer);
    gamePlayer.AddGameShip(s);
  }

  /** Every cell of the ship has been attacked (vacuously true for no cells). */
  predicate AllAttacked(cells: seq<Cell>)
    reads cells
  {
    forall c :: c in cells ==> c.gridValue == Attacked
  }

  /** updateGameShipStatus: a hit ship whose cells are all attacked becomes
      SUNK and is appended again to the side's fleet; nothing else changes. */
  method UpdateGameShipStatus(gameShip: GameShip?, opponentPlayer: GamePlayer)
    modifies gameShip, opponentPlayer`ships
    ensures gameShip == null ==> opponentPlayer.ships == old(opponentPlayer.ships)
    ensures gameShip != null ==> gameShip.cells == old(gameShip.cells)
    ensures gameShip != null && old(AllAttacked(gameShip.cells)) ==>
      gameShip.status == Sunk && gameShip.gamePlayer == opponentPlayer &&
      opponentPlayer.ships == old(opponentPlayer.ships) + [gameShip]
    ensures gameShip != null && !old(AllAttacked(gameShip.cells)) ==>
      unchanged(gameShip) && opponentPlayer.ships == old(opponentPlayer.ships)
  {
    if gameShip != null {
      if AllAttacked(gameShip.cells) {
        gameShip.status := Sunk;
        opponentPlayer.AddGameShip(gameShip);
      }
    }
  }
}
