/** Vocabulary shared by the whole engine: the enumerations of the entity
    classes, the shapes of the incoming requests, the ship catalog record,
    the error messages as an enumeration, and the Java `int` arithmetic the
    placement check depends on. */
module Types {

  /** Side length of every board (Constants.GRID_VALUE). */
  const GRID_VALUE: int := 10

  /** Java `int`: request coordinates are 32-bit signed integers. */
  newtype int32 = x: int | -0x8000_0000 <= x < 0x8000_0000

  /** Identifier of a stored game (a 128-bit UUID). */
  type Uuid = x: int | 0 <= x < 0x1_0000_0000_0000_0000_0000_0000_0000_0000

  datatype Option<+T> = None | Some(value: T)

  datatype GridValue = NotAttacked | Attacked
  datatype ShipStatus = NotSunk | Sunk
  datatype GameStatus = Ongoing | Completed

  /** GameShipLocationRequest: one (row, column) pair as submitted. */
  datatype Location = Location(row: int32, col: int32)

  /** GameShipRequest: a catalog ship id and its coordinates in submitted order. */
  datatype ShipRequest = ShipRequest(shipId: int, locations: seq<Location>)

  /** GameCreationRequest: one side of a game to create. */
  datatype CreationRequest = CreationRequest(playerName: string, shipsInfo: seq<ShipRequest>)

  /** GamePlayRequest: the game, the acting game player's id and the target. */
  datatype PlayRequest = PlayRequest(gameId: string, currentPlayer: int, attackedGrid: Location)

  /** ShipEntity: a catalog entry. */
  datatype ShipTemplate = ShipTemplate(shipId: int, shipName: string, shipLength: int32)

  /** The failures the services raise, one per message key. */
  datatype Error =
    | InvalidGameId               // GameService.INVALID_GAME_ID
    | GameIdNotExists             // GameService.ID_NOT_EXISTS
    | PlayerNotFound              // GameService.PLAYER_NOT_FOUND
    | PlayerTurnOver              // GameService.PLAYER_TURN-OVER
    | InvalidPlayerCount          // GameService.INVALID_PLAYER_COUNT
    | GameNotCreated              // "Unable to create game due to invalid input"
    | CoordinatesNotExists        // GameGridService.COORDINATES_NOT_EXISTS
    | AlreadyAttacked             // GameGridService.ALREADY_ATTACKED
    | ShipIdNotProvided(shipId: int)
    | ShipIdNotFound(shipId: int)
    | ShipLengthMismatch(shipId: int)
    | ShipsOverlapping            // GameShipService.SHIPS_OVERLAPPING
    | ShipsNotAdjacent            // GameShipService.SHIPS_NOT_ADJACENT
    | PlayerDoesNotExist(name: string)
    | PlayerNotJoined(name: string)
    | PlayerAlreadyPlaying(name: string)
    | PlayerNameEmpty             // PlayerService.PLAYER_NAME_IS_EMPTY
    | PlayerAlreadyInGame         // PlayerService.PLAYER_ALREADY_INGAME
    | PlayerAlreadyJoined         // PlayerService.PLAYER_ALREADY_JOINEDGAME
    | NoPlayers                   // PlayerService.NO_PLAYERS

  /** The exception class each failure is thrown as. */
  datatype ErrorKind = Validation | Application | InvalidPlayerData

  function Kind(e: Error): ErrorKind
  {
    match e
    case GameIdNotExists => Application
    case PlayerNameEmpty | PlayerAlreadyInGame | PlayerAlreadyJoined | NoPlayers => InvalidPlayerData
    case _ => Validation
  }

  datatype Result<+T> = Ok(value: T) | Err(error: Error)

  datatype Outcome = Pass | Fail(error: Error)

  /** Reduces an unbounded integer to Java `int` (two's complement wrap-around). */
  function Wrap(x: int): int32
  {
    var m := x % 0x1_0000_0000;
    (if m >= 0x8000_0000 then m - 0x1_0000_0000 else m) as int32
  }

  /** Java `a - b` on `int`. */
  function JavaSub(a: int32, b: int32): int32
  {
    Wrap(a as int - b as int)
  }

  /** Java `Math.abs(int)`: the negation wraps, so the minimum value maps to itself. */
  function JavaAbs(a: int32): int32
  {
    if a < 0 then Wrap(-(a as int)) else a
  }

  /** Away from the ends of the `int` range, Java's wrapped distance is the
      mathematical one. */
  lemma JavaDistanceExact(a: int32, b: int32)
    requires -0x4000_0000 <= a as int < 0x4000_0000 && -0x4000_0000 <= b as int < 0x4000_0000
    ensures JavaAbs(JavaSub(a, b)) as int == if a >= b then a as int - b as int else b as int - a as int
  {
  }

  /** At the end of the range the distance is negative: Math.abs(0 - MIN_VALUE) == MIN_VALUE. */
  lemma JavaDistanceAtMinimum()
    ensures JavaAbs(JavaSub(0, -0x8000_0000)) == -0x8000_0000
  {
  }

  // ---- Integer.toString and the "row-col" key of the overlap check ----

  predicate IsDigit(ch: char)
  {
    '0' <= ch <= '9'
  }

  function DigitChar(d: int): (ch: char)
    requires 0 <= d < 10
    ensures IsDigit(ch)
  {
    "0123456789"[d]
  }

  /** Decimal digits of `n`, most significant first, no leading zeros. */
  function NatToString(n: nat): (s: string)
    ensures |s| >= 1
    ensures forall i :: 0 <= i < |s| ==> IsDigit(s[i])
    decreases n
  {
    if n < 10 then [DigitChar(n)] else NatToString(n / 10) + [DigitChar(n % 10)]
  }

  /** Integer.toString(int). */
  function IntToString(i: int): string
  {
    if i < 0 then "-" + NatToString(-i) else NatToString(i)
  }

  /** The visited-set key of areShipLocationsOverlapping: row + "-" + col. */
  function GridKey(l: Location): string
  {
    IntToString(l.row as int) + "-" + IntToString(l.col as int)
  }

  lemma {:induction false} NatToStringInjective(m: nat, n: nat)
    requires NatToString(m) == NatToString(n)
    ensures m == n
    decreases m
  {
    var sm, sn := NatToString(m), NatToString(n);
    NatToStringSingleDigit(m);
    NatToStringSingleDigit(n);
    if m < 10 {
      assert "0123456789"[m] == sm[0] == sn[0] == "0123456789"[n];
    } else {
      assert sm[..|sm| - 1] == NatToString(m / 10);
      assert sn[..|sn| - 1] == NatToString(n / 10);
      NatToStringInjective(m / 10, n / 10);
      assert "0123456789"[m % 10] == sm[|sm| - 1] == sn[|sn| - 1] == "0123456789"[n % 10];
    }
  }

  lemma NatToStringSingleDigit(n: nat)
    ensures |NatToString(n)| == 1 <==> n < 10
  {
  }

  /** Only the first character of Integer.toString can be a '-'. */
  lemma IntToStringShape(i: int)
    ensures |IntToString(i)| >= 1
    ensures forall k :: 1 <= k < |IntToString(i)| ==> IsDigit(IntToString(i)[k])
    ensures IsDigit(IntToString(i)[0]) <==> i >= 0
  {
  }

  lemma IntToStringInjective(a: int, b: int)
    requires IntToString(a) == IntToString(b)
    ensures a == b
  {
    IntToStringShape(a);
    IntToStringShape(b);
    if a < 0 {
      assert IntToString(a)[1..] == NatToString(-a);
      assert IntToString(b)[1..] == NatToString(-b);
      NatToStringInjective(-a, -b);
    } else {
      NatToStringInjective(a, b);
    }
  }

  /** In `s + "-" + t`, where `s` has digits after its first character, the
      first '-' past position 0 is the separator. */
  lemma SeparatorIndex(s: string, t: string, k: int)
    requires |s| >= 1 && forall j :: 1 <= j < |s| ==> IsDigit(s[j])
    requires 1 <= k <= |s|
    ensures (s + "-" + t)[k] == '-' <==> k == |s|
  {
  }

  /** The separator is the first '-' after position 0, so both halves can be recovered. */
  lemma SplitAtSeparator(a: int, b: int, t: string, u: string)
    requires IntToString(a) + "-" + t == IntToString(b) + "-" + u
    ensures a == b && t == u
  {
    var sa, sb := IntToString(a), IntToString(b);
    IntToStringShape(a);
    IntToStringShape(b);
    var x := sa + "-" + t;
    var k := if |sa| <= |sb| then |sa| else |sb|;
    SeparatorIndex(sa, t, k);
    SeparatorIndex(sb, u, k);
    assert sa == x[..|sa|] == sb;
    assert t == x[|sa| + 1..] == u;
    IntToStringInjective(a, b);
  }

  /** Two locations have the same key exactly when they are the same location. */
  lemma GridKeyInjective(l: Location, m: Location)
    ensures GridKey(l) == GridKey(m) <==> l == m
  {
    if GridKey(l) == GridKey(m) {
      SplitAtSeparator(l.row as int, m.row as int, IntToString(l.col as int), IntToString(m.col as int));
      IntToStringInjective(l.col as int, m.col as int);
    }
  }
}
