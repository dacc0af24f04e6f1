/** What the handlers of the match promise: their guards, what each branch
    does to the hands, the pile, the turn and the challenge, that no branch
    creates or loses a card (except a departure, which discards), and that
    they keep `Inv`. */
module GameProps {
  import opened Cards
  import opened PileMatcher
  import opened Deck
  import opened Game

  // ---------------------------------------------------------------- cards

  lemma {:induction false} HandCardsConcat(a: seq<Player>, b: seq<Player>)
    ensures HandCards(a + b) == HandCards(a) + HandCards(b)
  {
    if a != [] {
      assert (a + b)[0] == a[0] && (a + b)[1..] == a[1..] + b;
      HandCardsConcat(a[1..], b);
    } else {
      assert a + b == b;
    }
  }

  lemma HandCardsSplit(players: seq<Player>, i: nat)
    requires i < |players|
    ensures HandCards(players) == HandCards(players[..i]) + multiset(players[i].hand) + HandCards(players[i + 1..])
  {
    var front, here, back := players[..i], [players[i]], players[i + 1..];
    assert players == front + here + back;
    HandCardsConcat(front + here, back);
    HandCardsConcat(front, here);
    assert here[1..] == [];
    assert HandCards(here) == multiset(players[i].hand);
  }

  /** A hand that collects `won` at its back adds exactly those cards. */
  lemma HandCardsCollect(players: seq<Player>, i: nat, won: seq<Card>)
    requires i < |players|
    ensures HandCards(WithHand(players, i, players[i].hand + won)) == HandCards(players) + multiset(won)
  {
    var q := WithHand(players, i, players[i].hand + won);
    HandCardsSplit(players, i);
    HandCardsSplit(q, i);
    assert q[..i] == players[..i] && q[i + 1..] == players[i + 1..];
  }

  /** A hand that gives up its front card loses exactly that card. */
  lemma HandCardsShift(players: seq<Player>, i: nat)
    requires i < |players| && players[i].hand != []
    ensures HandCards(WithHand(players, i, players[i].hand[1..])) + multiset{players[i].hand[0]} == HandCards(players)
  {
    var h := players[i].hand;
    var q := WithHand(players, i, h[1..]);
    HandCardsSplit(players, i);
    HandCardsSplit(q, i);
    assert q[..i] == players[..i] && q[i + 1..] == players[i + 1..];
    assert h == [h[0]] + h[1..];
  }

  lemma {:induction false} HandCardsAppend(players: seq<Player>, p: Player)
    ensures HandCards(players + [p]) == HandCards(players) + multiset(p.hand)
  {
    if players == [] {
      assert (players + [p])[1..] == [];
    } else {
      assert (players + [p])[1..] == players[1..] + [p];
      HandCardsAppend(players[1..], p);
    }
  }

  lemma {:induction false} HandCardsRemove(players: seq<Player>, id: SocketId)
    ensures HandCards(Remove(players, id)) <= HandCards(players)
  {
    if players != [] {
      var rest := Remove(players[1..], id);
      HandCardsRemove(players[1..], id);
      if players[0].id != id {
        assert Remove(players, id) == [players[0]] + rest;
        assert ([players[0]] + rest)[1..] == rest;
      } else {
        assert Remove(players, id) == rest;
      }
    }
  }

  /** The seats that `filter` keeps of one player: the player itself, or
      nothing when it has the departing id. */
  function Kept(p: Player, id: SocketId): seq<Player>
  {
    if p.id != id then [p] else []
  }

  /** `filter` keeps the order of the seats: removing from a concatenation
      removes from each part and concatenates the rests. */
  lemma {:induction false} RemoveConcat(a: seq<Player>, b: seq<Player>, id: SocketId)
    ensures Remove(a + b, id) == Remove(a, id) + Remove(b, id)
  {
    if a == [] {
      assert a + b == b;
    } else {
      assert (a + b)[0] == a[0] && (a + b)[1..] == a[1..] + b;
      RemoveConcat(a[1..], b, id);
    }
  }

  /** Collecting a pile whose top card was just played puts that card last. */
  lemma ReverseAfterPlay<T>(c: T, s: seq<T>)
    ensures Reverse([c] + s) == Reverse(s) + [c]
  {
    assert ([c] + s)[1..] == s;
  }

  // ----------------------------------------------------------- playCard

  /** `playCard` gets past its guard: the caller holds the seat whose turn it
      is and has a card. */
  predicate CanPlay(m: Match, id: SocketId)
  {
    var idx := IndexOf(m.players, id);
    0 <= idx == m.turnIndex && m.players[idx].hand != []
  }

  /** The card `playCard` would take from the front of the caller's hand. */
  function FrontCard(m: Match, id: SocketId): Card
    requires CanPlay(m, id)
  {
    m.players[IndexOf(m.players, id)].hand[0]
  }

  /** The seats once the caller's front card has been taken. */
  function AfterShift(m: Match, id: SocketId): seq<Player>
    requires CanPlay(m, id)
  {
    var idx := IndexOf(m.players, id);
    WithHand(m.players, idx, m.players[idx].hand[1..])
  }

  /** A play out of turn, with an empty hand or from a socket without a seat
      changes nothing. */
  lemma PlayCardGuard(m: Match, id: SocketId)
    requires Inv(m)
    ensures PlayCard(m, id).1 == Ignored <==> !CanPlay(m, id)
    ensures PlayCard(m, id).1 == Ignored ==> PlayCard(m, id).0 == m
    ensures IndexOf(m.players, id) == -1 ==> PlayCard(m, id) == (m, Ignored)
  {
  }

  /** A J, Q, K or A opens a new challenge for the player, replacing any open
      one without awarding the pile, and passes the turn. */
  lemma PlayCardFace(m: Match, id: SocketId)
    requires Inv(m) && CanPlay(m, id) && FaceChances(FrontCard(m, id).v) > 0
    ensures var c := FrontCard(m, id);
      PlayCard(m, id) ==
        (Match(AfterShift(m, id), [c] + m.pile, 1 - m.turnIndex,
               Some(Challenge(m.turnIndex, FaceChances(c.v)))), Played)
  {
  }

  /** A number card that answers a challenge with cards still owed: one card
      less is owed and the turn stays with the same seat. */
  lemma PlayCardAnswer(m: Match, id: SocketId)
    requires Inv(m) && CanPlay(m, id) && FaceChances(FrontCard(m, id).v) == 0
    requires m.challenge.Some? && m.challenge.value.remaining > 1
    ensures var ch := m.challenge.value;
      PlayCard(m, id) ==
        (Match(AfterShift(m, id), [FrontCard(m, id)] + m.pile, m.turnIndex,
               Some(Challenge(ch.challenger, ch.remaining - 1))), Played)
  {
  }

  /** The last card a challenge asks for: the challenger takes the pile with
      that card, in reverse order (the card just played ends at the back of
      their hand), the challenge closes and the turn goes to the challenger. */
  lemma PlayCardResolve(m: Match, id: SocketId)
    requires Inv(m) && CanPlay(m, id) && FaceChances(FrontCard(m, id).v) == 0
    requires m.challenge.Some? && m.challenge.value.remaining == 1
    requires m.challenge.value.challenger < |m.players|
    ensures var w := m.challenge.value.challenger;
            var idx := IndexOf(m.players, id);
            var next := PlayCard(m, id).0;
      && PlayCard(m, id).1 == Played
      && next.pile == [] && next.challenge == None && next.turnIndex == w
      && |next.players| == |m.players|
      && next.players[w].hand == m.players[w].hand + Reverse(m.pile) + [FrontCard(m, id)]
      && next.players[idx].hand == m.players[idx].hand[1..]
      && (forall k :: 0 <= k < |m.players| ==> next.players[k].id == m.players[k].id)
  {
    ReverseAfterPlay(FrontCard(m, id), m.pile);
  }

  /** A number card with no challenge open passes the turn to the other seat. */
  lemma PlayCardPlain(m: Match, id: SocketId)
    requires Inv(m) && CanPlay(m, id) && FaceChances(FrontCard(m, id).v) == 0
    requires m.challenge == None
    ensures PlayCard(m, id) ==
      (Match(AfterShift(m, id), [FrontCard(m, id)] + m.pile, 1 - m.turnIndex, None), Played)
  {
  }

  /** `playCard` throws exactly when it closes a challenge whose challenger
      index no longer names a seat. */
  lemma PlayCardThrows(m: Match, id: SocketId)
    requires Inv(m)
    ensures PlayCard(m, id).1 == Thrown <==>
      && CanPlay(m, id) && FaceChances(FrontCard(m, id).v) == 0
      && m.challenge.Some? && m.challenge.value.remaining == 1
      && m.challenge.value.challenger >= |m.players|
  {
  }

  /** No branch of `playCard`, the throw included, creates or loses a card. */
  lemma PlayCardConserves(m: Match, id: SocketId)
    requires Inv(m)
    ensures CardsInPlay(PlayCard(m, id).0) == CardsInPlay(m)
  {
    if CanPlay(m, id) {
      var idx := IndexOf(m.players, id);
      var c := FrontCard(m, id);
      var players := AfterShift(m, id);
      var pile := [c] + m.pile;
      HandCardsShift(m.players, idx);
      assert HandCards(players) + multiset(pile) == CardsInPlay(m);
      if FaceChances(c.v) > 0 {
        PlayCardFace(m, id);
      } else if m.challenge == None {
        PlayCardPlain(m, id);
      } else if m.challenge.value.remaining > 1 {
        PlayCardAnswer(m, id);
      } else {
        PlayCardCloseConserves(m, id);
      }
    }
  }

  /** The card that closes a challenge, thrown or not, keeps every card. */
  lemma PlayCardCloseConserves(m: Match, id: SocketId)
    requires Inv(m) && CanPlay(m, id) && FaceChances(FrontCard(m, id).v) == 0
    requires m.challenge.Some? && m.challenge.value.remaining == 1
    ensures CardsInPlay(PlayCard(m, id).0) == HandCards(AfterShift(m, id)) + multiset([FrontCard(m, id)] + m.pile)
  {
    var players := AfterShift(m, id);
    var pile := [FrontCard(m, id)] + m.pile;
    if m.challenge.value.challenger >= |players| {
      assert PlayCard(m, id).0 == m.(players := players, pile := pile, challenge := Some(m.challenge.value.(remaining := 0)));
    } else {
      var w := m.challenge.value.challenger;
      assert PlayCard(m, id).0 == Match(WithHand(players, w, players[w].hand + Reverse(pile)), [], w, None);
      HandCardsCollect(players, w, Reverse(pile));
    }
  }

  /** `playCard` keeps the turn in {0, 1} and every open challenge owned by
      the seat that is not to play, unless it throws. */
  lemma PlayCardKeepsInv(m: Match, id: SocketId)
    requires Inv(m)
    ensures PlayCard(m, id).1 != Thrown ==> Inv(PlayCard(m, id).0)
  {
  }

  // --------------------------------------------------------------- slap

  /** A slap on a slappable pile: the slapper collects the pile reversed,
      the challenge closes and the turn goes to the slapper. */
  lemma SlapWins(m: Match, id: SocketId)
    requires IndexOf(m.players, id) != -1 && CheckSlap(m.pile)
    ensures var idx := IndexOf(m.players, id);
      Slap(m, id) ==
        (Match(WithHand(m.players, idx, m.players[idx].hand + Reverse(m.pile)), [], idx, None), Won)
  {
  }

  /** A false slap burns the front card of the slapper's hand under the pile
      and changes nothing else: not the turn, not the challenge. */
  lemma SlapBurns(m: Match, id: SocketId)
    requires IndexOf(m.players, id) != -1 && !CheckSlap(m.pile)
    requires m.players[IndexOf(m.players, id)].hand != []
    ensures var idx := IndexOf(m.players, id);
            var hand := m.players[idx].hand;
      Slap(m, id) == (m.(players := WithHand(m.players, idx, hand[1..]), pile := m.pile + [hand[0]]), Burned)
  {
  }

  /** After a burn under a pile of two or more, the next slap wins exactly
      when the burned card has the top card's rank: no top rule held, or the
      slap would not have been false. */
  lemma BurnMakesSlappable(m: Match, id: SocketId)
    requires IndexOf(m.players, id) != -1 && !CheckSlap(m.pile) && |m.pile| >= 2
    requires m.players[IndexOf(m.players, id)].hand != []
    ensures var burned := m.players[IndexOf(m.players, id)].hand[0];
      CheckSlap(Slap(m, id).0.pile) <==> m.pile[0].v == burned.v
  {
    SlapBurns(m, id);
    BurnedPileSlappable(m.pile, m.players[IndexOf(m.players, id)].hand[0]);
  }

  /** A slap from a socket without a seat, or a false slap with an empty
      hand, changes nothing. */
  lemma SlapNoEffect(m: Match, id: SocketId)
    requires var idx := IndexOf(m.players, id);
      idx == -1 || (!CheckSlap(m.pile) && m.players[idx].hand == [])
    ensures Slap(m, id).0 == m
    ensures Slap(m, id).1 == NotSeated || Slap(m, id).1 == Missed
  {
  }

  /** No branch of `slap` creates or loses a card. */
  lemma SlapConserves(m: Match, id: SocketId)
    ensures CardsInPlay(Slap(m, id).0) == CardsInPlay(m)
  {
    var idx := IndexOf(m.players, id);
    if idx != -1 {
      var hand := m.players[idx].hand;
      if CheckSlap(m.pile) {
        SlapWins(m, id);
        HandCardsCollect(m.players, idx, Reverse(m.pile));
      } else if hand != [] {
        SlapBurns(m, id);
        HandCardsShift(m.players, idx);
        assert multiset(m.pile + [hand[0]]) == multiset(m.pile) + multiset([hand[0]]);
      }
    }
  }

  lemma SlapKeepsInv(m: Match, id: SocketId)
    requires Inv(m)
    ensures Inv(Slap(m, id).0)
  {
  }

  // --------------------------------------------------------- disconnect

  /** A departure removes the socket's seat and its hand, keeping the other
      seats in their order; with fewer than two seats left the pile is
      discarded too. The turn and any open challenge are left as they were,
      and no card is created. */
  lemma DisconnectEffect(m: Match, id: SocketId)
    ensures var next := Disconnect(m, id);
      && next.turnIndex == m.turnIndex && next.challenge == m.challenge
      && next.pile == (if |next.players| < 2 then [] else m.pile)
      && (forall p :: p in next.players <==> p in m.players && p.id != id)
      && (|m.players| == 1 ==> next.players == Kept(m.players[0], id))
      && (|m.players| == 2 ==> next.players == Kept(m.players[0], id) + Kept(m.players[1], id))
      && CardsInPlay(next) <= CardsInPlay(m)
  {
    HandCardsRemove(m.players, id);
    if |m.players| == 1 {
      RemoveOne(m.players[0], id);
      assert m.players == [m.players[0]];
    } else if |m.players| == 2 {
      RemoveTwo(m.players[0], m.players[1], id);
      assert m.players == [m.players[0], m.players[1]];
    }
  }

  lemma RemoveOne(p: Player, id: SocketId)
    ensures Remove([p], id) == Kept(p, id)
  {
    assert [p][1..] == [];
  }

  lemma RemoveTwo(p0: Player, p1: Player, id: SocketId)
    ensures Remove([p0, p1], id) == Kept(p0, id) + Kept(p1, id)
  {
    assert [p0, p1] == [p0] + [p1];
    RemoveConcat([p0], [p1], id);
    RemoveOne(p0, id);
    RemoveOne(p1, id);
  }

  /** When seat 0 leaves, the player at seat 1 moves to seat 0. */
  lemma DisconnectShiftsSeat(p0: Player, p1: Player, pile: seq<Card>, turn: int, ch: Option<Challenge>)
    requires p0.id != p1.id
    ensures Disconnect(Match([p0, p1], pile, turn, ch), p0.id) == Match([p1], [], turn, ch)
  {
    assert [p0, p1][1..] == [p1];
    assert [p1][1..] == [];
  }

  lemma DisconnectKeepsInv(m: Match, id: SocketId)
    requires Inv(m)
    ensures Inv(Disconnect(m, id))
  {
  }

  // -------------------------------------------------------------- join

  /** Whether a connection to `m` deals the deck. */
  predicate Deals(m: Match)
  {
    (|m.players| == 1 || |m.players| == 2) && m.players[0].hand == []
  }

  /** With a seat free, the newcomer takes the next seat with an empty hand;
      without a deal nothing else changes and no card is created. */
  lemma JoinSeats(m: Match, id: SocketId, deck: seq<Card>)
    requires IsShuffledDeck(deck) && |m.players| < 2 && !Deals(m)
    ensures Join(m, id, deck) == m.(players := m.players + [Player(id, [])])
    ensures CardsInPlay(Join(m, id, deck)) == CardsInPlay(m)
  {
    HandCardsAppend(m.players, Player(id, []));
  }

  /** A connection while both seats are taken and seat 0 holds cards leaves
      the match unchanged: the newcomer is a spectator. */
  lemma JoinWhenFull(m: Match, id: SocketId, deck: seq<Card>)
    requires IsShuffledDeck(deck) && |m.players| >= 2 && m.players[0].hand != []
    ensures Join(m, id, deck) == m
  {
  }

  /** The deal: seat 0 gets the first 26 cards of the shuffled deck, seat 1
      the other 26, and the hands together hold the whole deck once; the
      pile, turn and challenge are kept. */
  lemma JoinDeals(m: Match, id: SocketId, deck: seq<Card>)
    requires IsShuffledDeck(deck) && Deals(m)
    ensures |deck| == 52
    ensures var next := Join(m, id, deck);
      && |next.players| == 2
      && next.players[0].id == m.players[0].id
      && next.players[1].id == (if |m.players| == 1 then id else m.players[1].id)
      && next.players[0].hand == deck[..26] && next.players[1].hand == deck[26..52]
      && next.pile == m.pile && next.turnIndex == m.turnIndex && next.challenge == m.challenge
      && HandCards(next.players) == multiset(FullDeck())
      && CardsInPlay(next) == multiset(FullDeck()) + multiset(m.pile)
  {
    ShuffledDeckHalves(deck);
    var next := Join(m, id, deck);
    var ps := next.players;
    assert ps[1..] == [ps[1]] && ps[1..][1..] == [];
    assert HandCards(ps) == multiset(deck[..26]) + HandCards([ps[1]]);
    assert HandCards([ps[1]]) == multiset(deck[26..52]) + HandCards([]);
  }

  lemma JoinKeepsInv(m: Match, id: SocketId, deck: seq<Card>)
    requires Inv(m) && IsShuffledDeck(deck)
    ensures Inv(Join(m, id, deck))
  {
  }

  // ---------------------------------------------------------- scenarios

  /** Seat 0 plays a Jack, seat 1 answers with a number card: seat 0 takes
      both cards and the turn. */
  lemma JackChallengeScenario()
    ensures var m0 := Match([Player("a", [Card(Jack, Spades), Card(Number(2), Hearts)]),
                             Player("b", [Card(Number(5), Diamonds), Card(Number(6), Clubs)])], [], 0, None);
            var m1 := PlayCard(m0, "a").0;
      && m1 == Match([Player("a", [Card(Number(2), Hearts)]),
                      Player("b", [Card(Number(5), Diamonds), Card(Number(6), Clubs)])],
                     [Card(Jack, Spades)], 1, Some(Challenge(0, 1)))
      && PlayCard(m1, "b") ==
           (Match([Player("a", [Card(Number(2), Hearts), Card(Jack, Spades), Card(Number(5), Diamonds)]),
                   Player("b", [Card(Number(6), Clubs)])], [], 0, None), Played)
  {
    var m0 := Match([Player("a", [Card(Jack, Spades), Card(Number(2), Hearts)]),
                     Player("b", [Card(Number(5), Diamonds), Card(Number(6), Clubs)])], [], 0, None);
    var m1 := Match([Player("a", [Card(Number(2), Hearts)]),
                     Player("b", [Card(Number(5), Diamonds), Card(Number(6), Clubs)])],
                    [Card(Jack, Spades)], 1, Some(Challenge(0, 1)));
    assert IndexOf(m0.players, "a") == 0;
    assert AfterShift(m0, "a") == m1.players;
    PlayCardFace(m0, "a");
    assert IndexOf(m1.players, "b") == 1 by {
      assert m1.players[1..] == [m1.players[1]];
    }
    assert PlayCard(m0, "a").0 == m1;
    var c := Card(Number(5), Diamonds);
    var shifted := [Player("a", [Card(Number(2), Hearts)]), Player("b", [Card(Number(6), Clubs)])];
    assert AfterShift(m1, "b") == shifted;
    ReverseAfterPlay(c, [Card(Jack, Spades)]);
    assert Reverse([c] + m1.pile) == [Card(Jack, Spades), c];
    assert PlayCard(m1, "b").0 == Match(WithHand(shifted, 0, shifted[0].hand + [Card(Jack, Spades), c]), [], 0, None);
    assert PlayCard(m1, "b").1 == Played;
    assert [Card(Number(2), Hearts)] + [Card(Jack, Spades), c] == [Card(Number(2), Hearts), Card(Jack, Spades), c];
    assert WithHand(shifted, 0, shifted[0].hand + [Card(Jack, Spades), c]) == [Player("a", [Card(Number(2), Hearts), Card(Jack, Spades), Card(Number(5), Diamonds)]),
                   Player("b", [Card(Number(6), Clubs)])];
  }

  /** Seat 0 plays a King, seat 1 answers with a Queen: the Queen opens a new
      challenge for seat 1 and nobody takes the pile. */
  lemma ChainedChallengeScenario()
    ensures var m0 := Match([Player("a", [Card(King, Spades)]), Player("b", [Card(Queen, Hearts)])], [], 0, None);
            var m1 := PlayCard(m0, "a").0;
      && m1.challenge == Some(Challenge(0, 3)) && m1.turnIndex == 1
      && PlayCard(m1, "b") ==
           (Match([Player("a", []), Player("b", [])], [Card(Queen, Hearts), Card(King, Spades)], 0,
                  Some(Challenge(1, 2))), Played)
  {
    var m0 := Match([Player("a", [Card(King, Spades)]), Player("b", [Card(Queen, Hearts)])], [], 0, None);
    var m1 := Match([Player("a", []), Player("b", [Card(Queen, Hearts)])], [Card(King, Spades)], 1, Some(Challenge(0, 3)));
    assert IndexOf(m0.players, "a") == 0;
    assert [Card(King, Spades)][1..] == [] && [Card(Queen, Hearts)][1..] == [];
    assert AfterShift(m0, "a") == m1.players;
    PlayCardFace(m0, "a");
    assert IndexOf(m1.players, "b") == 1 by {
      assert m1.players[1..] == [m1.players[1]];
    }
    assert AfterShift(m1, "b") == [Player("a", []), Player("b", [])];
    PlayCardFace(m1, "b");
    assert PlayCard(m0, "a").0 == m1;
    assert [Card(Queen, Hearts)] + [Card(King, Spades)] == [Card(Queen, Hearts), Card(King, Spades)];
  }
}
