/** The server's single shared `gameState` and the socket handlers that
    update it in place. Each handler runs to completion before the next one
    starts, so each is one method. */
module Server {
  import opened Cards
  import opened PileMatcher
  import opened Deck
  import opened Game
  import opened GameProps

  class GameState {
    var players: seq<Player>
    var pile: seq<Card>
    var turnIndex: int
    var challenge: Option<Challenge>

    /** The state as a value, to compare it with the transitions of `Game`. */
    function Snapshot(): Match
      reads this
    {
      Match(players, pile, turnIndex, challenge)
    }

    /** `gameState` as the server starts: no seats, an empty pile, turn 0. */
    constructor ()
      ensures Snapshot() == Initial && Inv(Snapshot())
    {
      players := [];
      pile := [];
      turnIndex := 0;
      challenge := None;
    }

    /** A new connection; `deck` is what `createDeck` returned for it. */
    method Join(id: SocketId, deck: seq<Card>)
      requires Inv(Snapshot()) && IsShuffledDeck(deck)
      modifies this
      ensures Snapshot() == Game.Join(old(Snapshot()), id, deck)
      ensures Inv(Snapshot())
    {
      JoinKeepsInv(Snapshot(), id, deck);
      if |players| < 2 {
        players := players + [Player(id, [])];
      }
      if |players| == 2 && |players[0].hand| == 0 {
        ShuffledDeckHalves(deck);
        players := players[0 := players[0].(hand := deck[..26])];
        players := players[1 := players[1].(hand := deck[26..52])];
      }
    }

    /** The `playCard` event of socket `id`. */
    method PlayCard(id: SocketId) returns (r: PlayResult)
      requires Inv(Snapshot())
      modifies this
      ensures (Snapshot(), r) == Game.PlayCard(old(Snapshot()), id)
      ensures CardsInPlay(Snapshot()) == CardsInPlay(old(Snapshot()))
      ensures r != Thrown ==> Inv(Snapshot())
    {
      PlayCardKeepsInv(Snapshot(), id);
      PlayCardConserves(Snapshot(), id);
      var playerIdx := IndexOf(players, id);
      if playerIdx != turnIndex || |players[playerIdx].hand| == 0 {
        return Ignored;
      }
      var card := players[playerIdx].hand[0];
      players := players[playerIdx := players[playerIdx].(hand := players[playerIdx].hand[1..])];
      pile := [card] + pile;
      if FaceChances(card.v) > 0 {
        challenge := Some(Challenge(playerIdx, FaceChances(card.v)));
        turnIndex := (turnIndex + 1) % 2;
      } else if challenge.Some? {
        challenge := Some(challenge.value.(remaining := challenge.value.remaining - 1));
        if challenge.value.remaining == 0 {
          var winnerIdx := challenge.value.challenger;
          if !(0 <= winnerIdx < |players|) {
            // `gameState.players[winnerIdx]` is undefined: reading its hand throws
            return Thrown;
          }
          pile := Reverse(pile);
          players := players[winnerIdx := players[winnerIdx].(hand := players[winnerIdx].hand + pile)];
          pile := [];
          challenge := None;
          turnIndex := winnerIdx;
        }
      } else {
        turnIndex := (turnIndex + 1) % 2;
      }
      return Played;
    }

    /** The `slap` event of socket `id`; `Won` is when the server announces
        that the player won the slap. */
    method Slap(id: SocketId) returns (r: SlapResult)
      requires Inv(Snapshot())
      modifies this
      ensures (Snapshot(), r) == Game.Slap(old(Snapshot()), id)
      ensures CardsInPlay(Snapshot()) == CardsInPlay(old(Snapshot()))
      ensures Inv(Snapshot())
    {
      SlapKeepsInv(Snapshot(), id);
      SlapConserves(Snapshot(), id);
      var playerIdx := IndexOf(players, id);
      if playerIdx == -1 {
        return NotSeated;
      }
      if CheckSlap(pile) {
        pile := Reverse(pile);
        players := players[playerIdx := players[playerIdx].(hand := players[playerIdx].hand + pile)];
        pile := [];
        challenge := None;
        turnIndex := playerIdx;
        return Won;
      } else if |players[playerIdx].hand| > 0 {
        var burn := players[playerIdx].hand[0];
        players := players[playerIdx := players[playerIdx].(hand := players[playerIdx].hand[1..])];
        pile := pile + [burn];
        return Burned;
      }
      return Missed;
    }

    /** The `disconnect` event of socket `id`. */
    method Disconnect(id: SocketId)
      requires Inv(Snapshot())
      modifies this
      ensures Snapshot() == Game.Disconnect(old(Snapshot()), id)
      ensures CardsInPlay(Snapshot()) <= CardsInPlay(old(Snapshot()))
      ensures Inv(Snapshot())
    {
      DisconnectEffect(Snapshot(), id);
      DisconnectKeepsInv(Snapshot(), id);
      players := Remove(players, id);
      if |players| < 2 {
        pile := [];
      }
    }
  }
}
