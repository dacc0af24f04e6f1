/** The match state `gameState` and its four transitions, as functions from
    the state before a handler runs to the state after it. The class in
    server.dfy performs the same transitions in place. */
module Game {
  import opened Cards
  import opened PileMatcher
  import opened Deck

  /** A socket id, compared only for equality. */
  type SocketId = string

  /** An entry `{ id, hand }` of `players`; the hand is played from the front
      and receives won cards at the back. */
  datatype Player = Player(id: SocketId, hand: seq<Card>)

  /** An open challenge `{ challenger, remaining }`: the seat index that played
      the face card and how many cards the other seat still has to play. */
  datatype Challenge = Challenge(challenger: int, remaining: int)

  /** `gameState`: the pile has the card played last at index 0. */
  datatype Match = Match(players: seq<Player>, pile: seq<Card>, turnIndex: int, challenge: Option<Challenge>)

  /** What a `playCard` event did: returned early, ran to the end, or threw
      while reading the hand of a challenger whose seat no longer exists. */
  datatype PlayResult = Ignored | Played | Thrown

  /** What a `slap` event did: ignored a spectator, won the pile (the
      "won the slap!" notification), burned a card, or nothing at all. */
  datatype SlapResult = NotSeated | Won | Burned | Missed

  const Initial: Match := Match([], [], 0, None)

  /** What the handlers keep true of `gameState`: at most two seats, the turn
      is seat 0 or 1, and an open challenge still needs a card and belongs to
      the seat whose turn it is not. */
  predicate Inv(m: Match)
  {
    && |m.players| <= 2
    && (m.turnIndex == 0 || m.turnIndex == 1)
    && (m.challenge.Some? ==> m.challenge.value.remaining >= 1 && m.challenge.value.challenger == 1 - m.turnIndex)
  }

  /** `Array.prototype.reverse`, as used on the pile before a winner collects it. */
  function Reverse<T>(s: seq<T>): (r: seq<T>)
    ensures |r| == |s| && multiset(r) == multiset(s)
    ensures forall k :: 0 <= k < |s| ==> r[k] == s[|s| - 1 - k]
  {
    if s == [] then []
    else
      assert s == [s[0]] + s[1..];
      Reverse(s[1..]) + [s[0]]
  }

  /** `players.findIndex(p => p.id === id)`: the first seat held by `id`, or -1. */
  function IndexOf(players: seq<Player>, id: SocketId): (i: int)
    ensures -1 <= i < |players|
    ensures i >= 0 ==> players[i].id == id
    ensures forall j :: 0 <= j < |players| && (i == -1 || j < i) ==> players[j].id != id
  {
    if players == [] then -1
    else if players[0].id == id then 0
    else
      var k := IndexOf(players[1..], id);
      if k == -1 then -1 else k + 1
  }

  /** `players.filter(p => p.id !== id)`. */
  function Remove(players: seq<Player>, id: SocketId): (r: seq<Player>)
    ensures |r| <= |players|
    ensures forall p :: p in r <==> p in players && p.id != id
  {
    if players == [] then []
    else (if players[0].id != id then [players[0]] else []) + Remove(players[1..], id)
  }

  /** The cards held in the players' hands. */
  function HandCards(players: seq<Player>): multiset<Card>
  {
    if players == [] then multiset{} else multiset(players[0].hand) + HandCards(players[1..])
  }

  /** Every card in the match: the hands and the pile. */
  function CardsInPlay(m: Match): multiset<Card>
  {
    HandCards(m.players) + multiset(m.pile)
  }

  /** `players` with the hand at seat `i` replaced. */
  function WithHand(players: seq<Player>, i: nat, hand: seq<Card>): seq<Player>
    requires i < |players|
  {
    players[i := players[i].(hand := hand)]
  }

  /** A new connection (server.js:51-60): take a seat when fewer than two are
      taken; then, with two seats and an empty hand at seat 0, deal the first
      half of the shuffled deck to seat 0 and the second to seat 1. */
  function Join(m: Match, id: SocketId, deck: seq<Card>): Match
    requires IsShuffledDeck(deck)
  {
    ShuffledDeckHalves(deck);
    var seated := if |m.players| < 2 then m.players + [Player(id, [])] else m.players;
    if |seated| == 2 && seated[0].hand == [] then
      m.(players := [seated[0].(hand := deck[..26]), seated[1].(hand := deck[26..52])])
    else
      m.(players := seated)
  }

  /** The `playCard` handler (server.js:64-87). */
  function PlayCard(m: Match, id: SocketId): (Match, PlayResult)
    requires Inv(m)
  {
    var idx := IndexOf(m.players, id);
    if idx != m.turnIndex || m.players[idx].hand == [] then (m, Ignored)
    else
      var hand := m.players[idx].hand;
      var card := hand[0];
      var players := WithHand(m.players, idx, hand[1..]);
      var pile := [card] + m.pile;
      var chances := FaceChances(card.v);
      if chances > 0 then
        (m.(players := players, pile := pile, challenge := Some(Challenge(idx, chances)),
            turnIndex := (m.turnIndex + 1) % 2), Played)
      else if m.challenge.Some? then
        var c := m.challenge.value.(remaining := m.challenge.value.remaining - 1);
        if c.remaining != 0 then
          (m.(players := players, pile := pile, challenge := Some(c)), Played)
        else if !(0 <= c.challenger < |players|) then
          (m.(players := players, pile := pile, challenge := Some(c)), Thrown)
        else
          var w := c.challenger;
          (Match(WithHand(players, w, players[w].hand + Reverse(pile)), [], w, None), Played)
      else
        (m.(players := players, pile := pile, turnIndex := (m.turnIndex + 1) % 2), Played)
  }

  /** The `slap` handler (server.js:89-105). */
  function Slap(m: Match, id: SocketId): (Match, SlapResult)
  {
    var idx := IndexOf(m.players, id);
    if idx == -1 then (m, NotSeated)
    else if CheckSlap(m.pile) then
      (Match(WithHand(m.players, idx, m.players[idx].hand + Reverse(m.pile)), [], idx, None), Won)
    else if |m.players[idx].hand| > 0 then
      var hand := m.players[idx].hand;
      (m.(players := WithHand(m.players, idx, hand[1..]), pile := m.pile + [hand[0]]), Burned)
    else
      (m, Missed)
  }

  /** The `disconnect` handler (server.js:107-112). */
  function Disconnect(m: Match, id: SocketId): Match
  {
    var players := Remove(m.players, id);
    if |players| < 2 then m.(players := players, pile := []) else m.(players := players)
  }
}
