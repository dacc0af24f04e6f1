/** Two defects of the handlers as written, each shown on a concrete state,
    and the corrected handlers under which every run of events keeps each
    card at most once and never throws. */
module Findings {
  import opened Cards
  import opened Deck
  import opened Game
  import opened GameProps

  /** No card is held twice: the cards in play are part of one deck. */
  predicate NoCardDuplicated(m: Match)
  {
    CardsInPlay(m) <= multiset(FullDeck())
  }

  /** All 52 cards are in play, each once. */
  predicate CompleteDeck(m: Match)
  {
    CardsInPlay(m) == multiset(FullDeck())
  }

  // ------------------------------------------- re-deal on any connection

  /** As written, a connection that finds two seats and an empty hand at
      seat 0 deals a fresh deck over the cards still on the pile: every pile
      card is then in play twice. */
  lemma JoinRedealDuplicates(m: Match, id: SocketId, deck: seq<Card>)
    requires IsShuffledDeck(deck)
    requires |m.players| == 2 && m.players[0].hand == [] && m.pile != []
    ensures forall c :: CardsInPlay(Join(m, id, deck))[c] == 1 + multiset(m.pile)[c]
    ensures forall c :: c in m.pile ==> CardsInPlay(Join(m, id, deck))[c] >= 2
    ensures !NoCardDuplicated(Join(m, id, deck))
  {
    JoinDeals(m, id, deck);
    DeckComplete();
    var c := m.pile[0];
    assert CardsInPlay(Join(m, id, deck))[c] >= 2;
  }

  /** Seat 0 plays its only card, a number card, onto an empty pile: seat
      0's hand is then empty, seat 1 has the turn, and no card is lost. */
  lemma LastCardPlayed(c: Card, rest: seq<Card>)
    requires FaceChances(c.v) == 0
    ensures var before := Match([Player("a", [c]), Player("b", rest)], [], 0, None);
            var after := Match([Player("a", []), Player("b", rest)], [c], 1, None);
      && Inv(before) && Inv(after)
      && PlayCard(before, "a") == (after, Played)
      && CardsInPlay(before) == CardsInPlay(after) == multiset{c} + multiset(rest)
  {
    var before := Match([Player("a", [c]), Player("b", rest)], [], 0, None);
    var after := Match([Player("a", []), Player("b", rest)], [c], 1, None);
    assert before.players[1..] == [before.players[1]] && before.players[1..][1..] == [];
    assert after.players[1..] == [after.players[1]] && after.players[1..][1..] == [];
    assert HandCards([Player("b", rest)]) == multiset(rest) + HandCards([]);
    assert multiset([c]) == multiset{c};
    assert HandCards(before.players) == multiset([c]) + HandCards([Player("b", rest)]);
    assert HandCards(after.players) == multiset([]) + HandCards([Player("b", rest)]);
    assert IndexOf(before.players, "a") == 0;
    assert [c][1..] == [];
    assert AfterShift(before, "a") == after.players;
    assert FrontCard(before, "a") == c && [c] + before.pile == after.pile;
    PlayCardPlain(before, "a");
    assert PlayCard(before, "a") == (after, Played);
    assert Inv(after);
  }

  /** Seat 0 holds only the 2 of Spades, seat 1 the other 51 cards, and the
      pile is empty. Seat 0 plays its 2: all 52 cards are still in play and
      seat 0's hand is empty, so a spectator's connection re-deals and the 2
      is then in play twice. */
  lemma RedealWitness()
    ensures var two := FullDeck()[1];
            var rest := FullDeck()[..1] + FullDeck()[2..];
            var before := Match([Player("a", [two]), Player("b", rest)], [], 0, None);
            var after := Match([Player("a", []), Player("b", rest)], [two], 1, None);
      && two == Card(Number(2), Spades)
      && Inv(before) && CompleteDeck(before)
      && PlayCard(before, "a") == (after, Played)
      && Inv(after) && CompleteDeck(after)
      && CardsInPlay(Join(after, "spectator", FullDeck()))[two] == 2
      && !NoCardDuplicated(Join(after, "spectator", FullDeck()))
  {
    var two := FullDeck()[1];
    var rest := FullDeck()[..1] + FullDeck()[2..];
    assert FullDeck() == FullDeck()[..1] + [two] + FullDeck()[2..];
    LastCardPlayed(two, rest);
    var after := Match([Player("a", []), Player("b", rest)], [two], 1, None);
    JoinRedealDuplicates(after, "spectator", FullDeck());
  }

  /** The connection handler with the deal it evidently means: the deck is
      dealt only when two seats are taken and no card is in play yet. */
  function JoinDealingOnce(m: Match, id: SocketId, deck: seq<Card>): Match
    requires IsShuffledDeck(deck)
  {
    ShuffledDeckHalves(deck);
    var seated := if |m.players| < 2 then m.players + [Player(id, [])] else m.players;
    if |seated| == 2 && seated[0].hand == [] && seated[1].hand == [] && m.pile == [] then
      m.(players := [seated[0].(hand := deck[..26]), seated[1].(hand := deck[26..52])])
    else
      m.(players := seated)
  }

  /** The corrected connection loses no card and duplicates none; it deals
      exactly when nothing is in play and two seats are taken. */
  lemma JoinDealingOnceKeepsCards(m: Match, id: SocketId, deck: seq<Card>)
    requires IsShuffledDeck(deck) && NoCardDuplicated(m)
    ensures var next := JoinDealingOnce(m, id, deck);
      && NoCardDuplicated(next)
      && (CardsInPlay(next) == CardsInPlay(m) || (CardsInPlay(m) == multiset{} && CompleteDeck(next)))
  {
    var seated := if |m.players| < 2 then m.players + [Player(id, [])] else m.players;
    var next := JoinDealingOnce(m, id, deck);
    if |seated| == 2 && seated[0].hand == [] && seated[1].hand == [] && m.pile == [] {
      JoinDeals(m, id, deck);
      assert seated[1..] == [seated[1]] && seated[1..][1..] == [];
      if |m.players| < 2 {
        HandCardsAppend(m.players, Player(id, []));
      }
      assert HandCards(seated) == multiset(seated[0].hand) + HandCards([seated[1]]);
      assert HandCards([seated[1]]) == multiset(seated[1].hand) + HandCards([]);
    } else if |m.players| < 2 {
      HandCardsAppend(m.players, Player(id, []));
    }
  }

  // ----------------------------------------- challenger gone after a leave

  /** As written: seat 1 plays a Jack, then seat 0 leaves. The challenger's
      index 1 now names no seat, and the next card of the remaining player
      (now at seat 0) makes `playCard` throw. */
  lemma StaleChallengerThrows()
    ensures var start := Match([Player("a", [Card(Number(2), Spades)]), Player("b", [Card(Jack, Clubs), Card(Number(3), Hearts)])],
                               [], 1, None);
            var m := Match([Player("a", [Card(Number(2), Spades)]), Player("b", [Card(Number(3), Hearts)])],
                           [Card(Jack, Clubs)], 0, Some(Challenge(1, 1)));
            var left := Disconnect(m, "a");
      && Inv(start) && PlayCard(start, "b") == (m, Played)
      && Inv(m) && Inv(left)
      && left == Match([Player("b", [Card(Number(3), Hearts)])], [], 0, Some(Challenge(1, 1)))
      && PlayCard(left, "b").1 == Thrown
  {
    var start := Match([Player("a", [Card(Number(2), Spades)]), Player("b", [Card(Jack, Clubs), Card(Number(3), Hearts)])],
                       [], 1, None);
    var m := Match([Player("a", [Card(Number(2), Spades)]), Player("b", [Card(Number(3), Hearts)])],
                   [Card(Jack, Clubs)], 0, Some(Challenge(1, 1)));
    assert IndexOf(start.players, "b") == 1;
    assert [Card(Jack, Clubs), Card(Number(3), Hearts)][1..] == [Card(Number(3), Hearts)];
    assert AfterShift(start, "b") == m.players;
    assert FrontCard(start, "b") == Card(Jack, Clubs) && [Card(Jack, Clubs)] + start.pile == m.pile;
    PlayCardFace(start, "b");
    DisconnectShiftsSeat(m.players[0], m.players[1], m.pile, 0, m.challenge);
    var left := Match([Player("b", [Card(Number(3), Hearts)])], [], 0, Some(Challenge(1, 1)));
    assert IndexOf(left.players, "b") == 0;
    PlayCardThrows(left, "b");
  }

  /** Every open challenge belongs to a seat that exists. */
  predicate ChallengerSeated(m: Match)
  {
    m.challenge.Some? ==> 0 <= m.challenge.value.challenger < |m.players|
  }

  /** The departure handler with the reset it evidently means: with fewer than
      two seats left the pile and the open challenge are both discarded. */
  function DisconnectResetting(m: Match, id: SocketId): Match
  {
    var players := Remove(m.players, id);
    if |players| < 2 then m.(players := players, pile := [], challenge := None) else m.(players := players)
  }

  /** With its challenger seated, `playCard` never throws. */
  lemma SeatedChallengerNoThrow(m: Match, id: SocketId)
    requires Inv(m) && ChallengerSeated(m)
    ensures PlayCard(m, id).1 != Thrown
  {
    PlayCardThrows(m, id);
  }

  // ------------------------------------------------- the corrected server

  /** What the handlers of the corrected server keep true. */
  predicate Sound(m: Match)
  {
    Inv(m) && ChallengerSeated(m) && NoCardDuplicated(m)
  }

  /** An event delivered to the server by a socket. */
  datatype Event = Connect(id: SocketId, deck: seq<Card>) | PlayEvent(id: SocketId)
                 | SlapEvent(id: SocketId) | Leave(id: SocketId)

  predicate ShuffledDecks(events: seq<Event>)
  {
    forall i :: 0 <= i < |events| && events[i].Connect? ==> IsShuffledDeck(events[i].deck)
  }

  lemma ConnectSound(m: Match, id: SocketId, deck: seq<Card>)
    requires Sound(m) && IsShuffledDeck(deck)
    ensures Sound(JoinDealingOnce(m, id, deck))
  {
    JoinDealingOnceKeepsCards(m, id, deck);
  }

  lemma PlaySound(m: Match, id: SocketId)
    requires Sound(m)
    ensures PlayCard(m, id).1 != Thrown && Sound(PlayCard(m, id).0)
  {
    SeatedChallengerNoThrow(m, id);
    PlayCardKeepsInv(m, id);
    PlayCardConserves(m, id);
  }

  lemma SlapSound(m: Match, id: SocketId)
    requires Sound(m)
    ensures Sound(Slap(m, id).0)
  {
    SlapKeepsInv(m, id);
    SlapConserves(m, id);
  }

  lemma LeaveSound(m: Match, id: SocketId)
    requires Sound(m)
    ensures Sound(DisconnectResetting(m, id))
  {
    HandCardsRemove(m.players, id);
  }

  /** One event on the corrected server. No event makes a handler throw, and
      each keeps the state sound. */
  function Step(m: Match, e: Event): (next: Match)
    requires Sound(m) && (e.Connect? ==> IsShuffledDeck(e.deck))
    ensures Sound(next)
    ensures e.PlayEvent? ==> PlayCard(m, e.id).1 != Thrown
  {
    match e
    case Connect(id, deck) => ConnectSound(m, id, deck); JoinDealingOnce(m, id, deck)
    case PlayEvent(id) => PlaySound(m, id); PlayCard(m, id).0
    case SlapEvent(id) => SlapSound(m, id); Slap(m, id).0
    case Leave(id) => LeaveSound(m, id); DisconnectResetting(m, id)
  }

  /** A sequence of events on the corrected server. */
  function Run(m: Match, events: seq<Event>): (last: Match)
    requires Sound(m) && ShuffledDecks(events)
    ensures Sound(last)
    decreases |events|
  {
    if events == [] then m
    else
      assert ShuffledDecks(events[1..]) by {
        forall i | 0 <= i < |events[1..]| && events[1..][i].Connect?
          ensures IsShuffledDeck(events[1..][i].deck)
        {
          assert events[1..][i] == events[i + 1];
        }
      }
      Run(Step(m, events[0]), events[1..])
  }

  /** From the initial state, the corrected server never throws and never
      duplicates a card, whatever the events. */
  lemma RunSound(events: seq<Event>, id: SocketId)
    requires ShuffledDecks(events)
    ensures Sound(Run(Initial, events))
    ensures PlayCard(Run(Initial, events), id).1 != Thrown
  {
    assert HandCards([]) == multiset{};
    SeatedChallengerNoThrow(Run(Initial, events), id);
  }

  /** Once all 52 cards are in play, every event but a departure keeps them
      all in play, each once. */
  lemma StepKeepsCompleteDeck(m: Match, e: Event)
    requires Sound(m) && (e.Connect? ==> IsShuffledDeck(e.deck))
    requires !e.Leave? && CompleteDeck(m)
    ensures CompleteDeck(Step(m, e))
  {
    match e
    case Connect(id, deck) =>
      DeckComplete();
      assert FullDeck()[0] in CardsInPlay(m);
      JoinDealingOnceKeepsCards(m, id, deck);
    case PlayEvent(id) =>
      PlayCardConserves(m, id);
    case SlapEvent(id) =>
      SlapConserves(m, id);
  }
}
