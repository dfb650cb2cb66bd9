/** PlayerService: joining (locking) a player, the check that admits a
    player into a new game, and the listing of free players. The player
    table is a sequence in repository order whose names are unique. */
module Players {
  import opened Types
  import opened Entities

  /** Character.isWhitespace on a character of the name, as Java 9 and later
      define it: U+180E MONGOLIAN VOWEL SEPARATOR is not whitespace there,
      although it was in earlier releases. */
  predicate IsJavaWhitespace(ch: char)
  {
    ('\U{9}' <= ch <= '\U{D}') || ('\U{1C}' <= ch <= '\U{1F}') || ch == ' '
    || ch == '\U{1680}' || ('\U{2000}' <= ch <= '\U{2006}') || ('\U{2008}' <= ch <= '\U{200A}')
    || ch == '\U{2028}' || ch == '\U{2029}' || ch == '\U{205F}' || ch == '\U{3000}'
  }

  /** StringUtils.hasText: some character is not whitespace. */
  predicate HasText(s: string)
  {
    exists i :: 0 <= i < |s| && !IsJavaWhitespace(s[i])
  }

  /** The non-breaking spaces count as text, so a name made of them is accepted. */
  lemma NonBreakingSpaceIsText()
    ensures !HasText("") && !HasText(" \t\n\U{3000}")
    ensures HasText("\U{A0}") && HasText(" a ")
  {
    assert !IsJavaWhitespace("\U{A0}"[0]);
    assert !IsJavaWhitespace(" a "[1]);
  }

  /** The first player with the given name (names are constant, so no state is read). */
  function FindByName(ps: seq<Player>, name: string): (r: Player?)
    ensures r != null ==> r in ps && r.name == name
    ensures r == null <==> forall i :: 0 <= i < |ps| ==> ps[i].name != name
  {
    if |ps| == 0 then null
    else if ps[0].name == name then ps[0]
    else FindByName(ps[1..], name)
  }

  /** The players whose isLocked flag is false, in the given order. */
  function Unlocked(ps: seq<Player>): (r: seq<Player>)
    reads ps
    ensures forall i :: 0 <= i < |r| ==> r[i] in ps && !r[i].isLocked
    ensures forall i :: 0 <= i < |ps| && !ps[i].isLocked ==> ps[i] in r
    ensures |r| <= |ps|
  {
    if |ps| == 0 then []
    else (if ps[0].isLocked then [] else [ps[0]]) + Unlocked(ps[1..])
  }

  /** The listing keeps repository order: listing two tables one after the
      other is listing their concatenation. */
  lemma {:induction false} UnlockedAppend(a: seq<Player>, b: seq<Player>)
    ensures Unlocked(a + b) == Unlocked(a) + Unlocked(b)
    decreases |a|
  {
    if |a| > 0 {
      assert (a + b)[1..] == a[1..] + b;
      UnlockedAppend(a[1..], b);
    } else {
      assert a + b == b;
    }
  }

  class PlayerService {
    var players: seq<Player>

    /** The player name is the table's unique column. */
    predicate Valid()
      reads this
    {
      forall i, j :: 0 <= i < j < |players| ==> players[i].name != players[j].name
    }

    constructor ()
      ensures players == [] && Valid()
    {
      players := [];
    }

    /** findByplayerName: the player of that name, or null. */
    function FetchPlayerByPlayerName(name: string): (r: Player?)
      reads this
      ensures r != null ==> r in players && r.name == name
      ensures r == null <==> forall i :: 0 <= i < |players| ==> players[i].name != name
    {
      FindByName(players, name)
    }

    /** With unique names the lookup finds every registered player. */
    lemma LookupFindsEach(p: Player)
      requires Valid() && p in players
      ensures FetchPlayerByPlayerName(p.name) == p
    {
      var q := FetchPlayerByPlayerName(p.name);
      var i :| 0 <= i < |players| && players[i] == p;
      var j :| 0 <= j < |players| && players[j] == q;
      assert i == j;
    }

    /** fetchAllPlayersWhoAreNotLocked. */
    function FetchAllPlayersWhoAreNotLocked(): (r: seq<Player>)
      reads this, players
      ensures forall i :: 0 <= i < |r| ==> r[i] in players && !r[i].isLocked
      ensures forall i :: 0 <= i < |players| && !players[i].isLocked ==> players[i] in r
    {
      Unlocked(players)
    }

    /** fetchAllAvailablePlayers: the free players, or NO_PLAYERS when there are none. */
    function FetchAllAvailablePlayers(): (r: Result<seq<Player>>)
      reads this, players
      ensures r.Err? <==> forall i :: 0 <= i < |players| ==> players[i].isLocked
      ensures r.Err? ==> r.error == NoPlayers
      ensures r.Ok? ==> |r.value| > 0 && r.value == FetchAllPlayersWhoAreNotLocked()
    {
      var available := FetchAllPlayersWhoAreNotLocked();
      if |available| != 0 then
        assert available[0] in players && !available[0].isLocked;
        Ok(available)
      else
        assert forall i :: 0 <= i < |players| ==> players[i].isLocked;
        Err(NoPlayers)
    }

    /** validatePlayer: unknown, then not joined, then already playing. */
    function ValidatePlayer(name: string): (r: Result<Player>)
      reads this, players
      ensures FetchPlayerByPlayerName(name) == null ==> r == Err(PlayerDoesNotExist(name))
      ensures FetchPlayerByPlayerName(name) != null && !FetchPlayerByPlayerName(name).isLocked
              ==> r == Err(PlayerNotJoined(name))
      ensures (FetchPlayerByPlayerName(name) != null && FetchPlayerByPlayerName(name).isLocked
               && FetchPlayerByPlayerName(name).isPlaying) ==> r == Err(PlayerAlreadyPlaying(name))
      ensures r.Ok? ==> r.value in players && r.value.name == name && r.value.isLocked && !r.value.isPlaying
      ensures r.Ok? ==> r.value == FetchPlayerByPlayerName(name)
    {
      var p := FetchPlayerByPlayerName(name);
      if p == null then Err(PlayerDoesNotExist(name))
      else if !p.isLocked then Err(PlayerNotJoined(name))
      else if p.isPlaying then Err(PlayerAlreadyPlaying(name))
      else Ok(p)
    }

    /** A name is admitted exactly when its registered player has joined and is not playing. */
    lemma ValidatePlayerAdmits(name: string)
      requires Valid()
      ensures ValidatePlayer(name).Ok?
              <==> exists p :: p in players && p.name == name && p.isLocked && !p.isPlaying
    {
      if p :| p in players && p.name == name && p.isLocked && !p.isPlaying {
        LookupFindsEach(p);
      }
    }

    /** createPlayer: joins a free player, or registers a new one already
        joined. Only the table and the found player's flags can change. */
    method CreatePlayer(name: string) returns (r: Result<Player>)
      requires Valid()
      modifies this`players, FetchPlayerByPlayerName(name)
      ensures Valid()
      ensures var found := old(FetchPlayerByPlayerName(name));
        && (!HasText(name) ==> r == Err(PlayerNameEmpty))
        && (HasText(name) && found != null && old(found.isPlaying) ==> r == Err(PlayerAlreadyInGame))
        && (HasText(name) && found != null && !old(found.isPlaying) && old(found.isLocked)
            ==> r == Err(PlayerAlreadyJoined))
        && (r.Err? ==> players == old(players) && (found != null ==> unchanged(found)))
        && (HasText(name) && found != null && !old(found.isPlaying) && !old(found.isLocked)
            ==> r == Ok(found) && found.isLocked && found.isPlaying == old(found.isPlaying)
                && players == old(players))
        && (HasText(name) && found == null
            ==> r.Ok? && fresh(r.value) && r.value.name == name && r.value.isLocked
                && !r.value.isPlaying && players == old(players) + [r.value])
      ensures r.Ok? ==> ValidatePlayer(name) == Ok(r.value) && r.value !in FetchAllPlayersWhoAreNotLocked()
    {
      if !HasText(name) {
        return Err(PlayerNameEmpty);
      }
      var playerEntity := FetchPlayerByPlayerName(name);
      if playerEntity != null {
        if playerEntity.isPlaying {
          return Err(PlayerAlreadyInGame);
        } else if playerEntity.isLocked {
          return Err(PlayerAlreadyJoined);
        }
        playerEntity.isLocked := true;
        LookupFindsEach(playerEntity);
        r := Ok(playerEntity);
      } else {
        var newPlayer := new Player(name, true, false);
        players := players + [newPlayer];
        assert FetchPlayerByPlayerName(name) == newPlayer by {
          LookupFindsEach(newPlayer);
        }
        r := Ok(newPlayer);
      }
    }
  }
}
