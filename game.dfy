/** `Game` of `hearts.py`: the scores, the rotation of pass maps and the current round. */
module Games {
  import opened Wrappers
  import opened Cards
  import opened PassTargets
  import opened Rounds

  /** The message of the `ValueError` raised by `Game.__init__`. */
  const NeedFourPlayers: string := "Game requires four players"

  class Game {
    /** The score of each of the four players. */
    var scores: seq<int>
    /** The position of the current round in the cycle of pass maps: the `cycle`
        iterator of `Game.__init__` has been advanced `roundIndex + 1` times. */
    var roundIndex: nat
    var round: Round

    ghost predicate Valid()
      reads this, round
    {
      |scores| == 4 && round.Valid() && round.passTargets == TargetsFor(roundIndex)
    }

    /** `Game.__init__` with four players: all scores zero, and a first round that passes left. */
    constructor (shuffled: seq<Card>)
      requires IsShuffledDeck(shuffled)
      ensures Valid() && fresh(round)
      ensures scores == [0, 0, 0, 0] && roundIndex == 0
      ensures round.passTargets == LeftTargets()
      ensures round.captured == NoCaptures() && !round.broken && round.pile == []
      ensures (round.hands, round.active) == InitialHandsAndPlayer(shuffled)
    {
      scores := [0, 0, 0, 0];
      roundIndex := 0;
      RotationAccepted(0);
      var first := Round.TryNew(4, TargetsFor(0), shuffled);
      round := first.value;
    }

    /** `Game(players)`: fails unless there are exactly four players. */
    static method TryNew(playerCount: nat, shuffled: seq<Card>) returns (r: Result<Game>)
      requires IsShuffledDeck(shuffled)
      ensures r.Ok? <==> playerCount == 4
      ensures r.Err? ==> r.msg == NeedFourPlayers
      ensures r.Ok? ==> fresh(r.value) && fresh(r.value.round) && r.value.Valid()
      ensures r.Ok? ==> r.value.scores == [0, 0, 0, 0] && r.value.round.passTargets == LeftTargets()
    {
      if playerCount != 4 {
        return Err(NeedFourPlayers);
      }
      var game := new Game(shuffled);
      return Ok(game);
    }
  }
}
