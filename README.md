# ERS server: a Dafny model of the rules engine

This project models the rules engine of a two-player Egyptian-Ratscrew slap
game server, `server.js`. It covers:

- the slap pattern matcher `checkSlap`;
- the `faceChances` table and the deck built by `createDeck`;
- the single shared `gameState`, with `players` (each an `id` and a hand
  played from the front), `pile` (index 0 is the card played last),
  `turnIndex` and an optional `challenge {challenger, remaining}`;
- the four socket handlers that change that state: a new connection (join
  and deal), `playCard`, `slap` and `disconnect`.

Layout, one module per file:

- `cards.dfy` (`Cards`): ranks, suits, `faceChances` and the `parseInt(v) || 0`
  reading of a rank.
- `slap.dfy` (`PileMatcher`): `checkSlap`, proved equal to the five slap rules
  stated one by one.
- `deck.dfy` (`Deck`): the nested loops of `createDeck`, and the proof that the
  deck holds every card once. A shuffled deck is any permutation of it.
- `game.dfy` (`Game`): the state as a value `Match`, and each handler as a
  function from the state before it runs to the state after it. These
  functions are the specification.
- `game_props.dfy` (`GameProps`): what each handler does, branch by branch.
  Every handler keeps the state invariant `Inv`, except `playCard` on the path
  where it throws. `playCard` and `slap` neither create nor lose a card.
- `server.dfy` (`Server`): the class `GameState`. Its fields are those of
  `gameState`, and its methods perform the handlers in place, in the source's
  order. Each method is proved to produce the state the `Game` function gives.
- `findings.dfy` (`Findings`): two defects of the handlers as written, and the
  corrected handlers. With the corrected handlers, every sequence of events
  from the initial state keeps each card at most once and never throws.

`Inv` says: at most two seats; `turnIndex` is 0 or 1; an open challenge
still needs at least one card and belongs to the seat whose turn it is not.
Where `disconnect` shifts the remaining player from seat 1 to seat 0, the
model follows the code. It keeps `turnIndex` and `challenge` unchanged and
discards the departing hand and the pile.

Three behaviours of the code are easy to misread, and the model keeps them
as the code has them:

- A connection deals whenever two seats are taken and seat 0's hand is
  empty. It does not check seat 1's hand or the pile.
- A third connection is not always a no-op: it re-deals when seat 0's hand is
  empty (see Findings).
- Closing a challenge whose challenger index names no seat throws. The model
  gives that outcome as `Thrown`, with the state as it stood when the handler
  threw.

## Model

| member | source | states |
|---|---|---|
| `Cards.FaceChances` | server.js:13 | J, Q, K and A ask for 1 to 4 answering cards. A rank opens a challenge exactly when `parseInt` does not read it as a number. |
| `Deck.CreateDeck` | server.js:22-24 | The nested loops build the full deck, with value j of suit i at position 13*i + j. |
| `Deck.DeckComplete` | server.js:24 | The deck holds 52 cards and every (value, suit) pair exactly once. |
| `Deck.ShuffledDeckHalves` | server.js:57-59 | Dealing the two halves of any shuffle of the deck hands out every card once between the two hands. |
| `PileMatcher.CheckSlap` | server.js:28-47 | The sequence of early returns is true exactly when double, sandwich, tens, marriage or top-bottom holds. A pile of fewer than two cards is never slappable. |
| `PileMatcher.SlapExamples` | server.js:28-47 | [7,7], [5,9,5], [6,4], [K,Q], [Q,K] and [3,8,9,3] are slappable. [2,5] and [A,9] are not. |
| `PileMatcher.BurnedPileSlappable` | server.js:44 | A card burned under a pile of two or more makes the pile slappable exactly when a top rule held already or the card matches the top card's rank. |
| `Game.Reverse` | server.js:78 | `reverse` is a permutation that puts element k at position len-1-k. |
| `Game.IndexOf` | server.js:65 | `findIndex` gives the first seat whose id matches, or -1 when no seat matches. |
| `Game.Remove` | server.js:108 | `filter` keeps exactly the players with another id and never lengthens the list. |
| `GameProps.RemoveConcat` | server.js:108 | `filter` keeps the order of the seats: filtering a concatenation concatenates the filtered parts. |
| `GameProps.RemoveOne` | server.js:108 | Filtering one seat keeps it exactly when its id differs. |
| `GameProps.RemoveTwo` | server.js:108 | Filtering two seats keeps each seat whose id differs, in its place: the first one first. |
| `GameProps.PlayCardGuard` | server.js:65-66 | `playCard` does nothing unless the caller sits at `turnIndex` with a card, and this covers unseated callers. It is ignored exactly then. |
| `GameProps.PlayCardFace` | server.js:68-73 | A face card moves from the front of the hand to `pile[0]`. It opens `{challenger: turnIndex, remaining: faceChances}`, replacing any open challenge, and passes the turn. |
| `GameProps.PlayCardAnswer` | server.js:74-76 | A number card during a challenge with more than one card owed lowers `remaining` by one and keeps the turn. |
| `GameProps.PlayCardResolve` | server.js:76-82 | The last owed card closes the challenge. The challenger gets the old pile reversed plus the card just played at the back of their hand. The pile empties and the turn goes to the challenger. |
| `GameProps.PlayCardPlain` | server.js:83-85 | A number card with no challenge open moves to the pile and flips the turn between 0 and 1. |
| `GameProps.PlayCardThrows` | server.js:76-78 | `playCard` throws exactly when it closes a challenge whose challenger index names no seat. |
| `GameProps.PlayCardCloseConserves` | server.js:74-82 | The card that closes a challenge keeps every card in play, whether the handler throws or the challenger collects the pile. |
| `GameProps.PlayCardConserves` | server.js:68-82 | Every branch of `playCard` keeps the multiset of cards in the hands and the pile. |
| `GameProps.PlayCardKeepsInv` | server.js:64-87 | Unless it throws, `playCard` keeps the turn in {0, 1} and keeps each open challenge with the seat not on turn. |
| `GameProps.SlapWins` | server.js:93-97 | A correct slap appends the reversed pile to the slapper's hand. It empties the pile, closes the challenge and gives the turn to the slapper. |
| `GameProps.SlapBurns` | server.js:99-103 | A false slap with cards moves the hand's front card to the bottom of the pile and changes nothing else. |
| `GameProps.BurnMakesSlappable` | server.js:99-103 | After a burn under a pile of two or more, the pile is slappable exactly when the burned card has the top card's rank. |
| `GameProps.SlapNoEffect` | server.js:90-91 | A slap from an unseated socket, or a false slap with an empty hand, changes nothing. |
| `GameProps.SlapConserves` | server.js:93-103 | Every branch of `slap` keeps the multiset of cards in play. |
| `GameProps.SlapKeepsInv` | server.js:89-105 | `slap` keeps `Inv`. |
| `GameProps.DisconnectEffect` | server.js:107-112 | A departure keeps exactly the other players, in their seat order (for one or two seats, the remaining list is given outright). It keeps the turn and the challenge. It clears the pile when fewer than two remain, and it never adds a card. |
| `GameProps.DisconnectShiftsSeat` | server.js:108 | When seat 0 leaves, the player at seat 1 becomes seat 0. The turn and challenge stay and the pile is cleared. |
| `GameProps.DisconnectKeepsInv` | server.js:107-112 | A departure keeps `Inv`. |
| `GameProps.JoinSeats` | server.js:51-53 | With a seat free and no deal due, the newcomer is appended with an empty hand and no card changes. |
| `GameProps.JoinWhenFull` | server.js:51-56 | With two seats taken and cards at seat 0, a connection changes nothing. |
| `GameProps.JoinDeals` | server.js:51-60 | The deal keeps seat 0's id and seats the newcomer (or keeps the old seat 1). It gives seat 0 the first 26 cards and seat 1 the last 26. The hands then hold the whole deck, and the pile, turn and challenge are kept. |
| `GameProps.JoinKeepsInv` | server.js:51-60 | A connection keeps `Inv`. |
| `GameProps.JackChallengeScenario` | server.js:64-87 | Seat 0 plays a Jack and seat 1 answers with a number card. Seat 0 then holds both cards and has the turn. |
| `GameProps.ChainedChallengeScenario` | server.js:71-73 | A Queen played against a King opens a new challenge for its player, and nobody takes the pile. |
| `Server.GameState.constructor` | server.js:15-20 | The initial `gameState` has no players, an empty pile, turn 0 and no challenge. |
| `Server.GameState.Join` | server.js:51-60 | The in-place join and deal produce `Game.Join` of the old state and keep `Inv`. |
| `Server.GameState.PlayCard` | server.js:64-87 | The in-place `shift`/`unshift`/`reverse` updates produce `Game.PlayCard`'s state and outcome. They conserve cards and keep `Inv` unless they throw. |
| `Server.GameState.Slap` | server.js:89-105 | The in-place slap produces `Game.Slap`'s state and outcome, conserves cards and keeps `Inv`. |
| `Server.GameState.Disconnect` | server.js:107-112 | The in-place departure produces `Game.Disconnect`, never adds a card and keeps `Inv`. |
| `Findings.JoinRedealDuplicates` | server.js:56-60 | As written, a connection finding two seats, an empty hand at seat 0 and a non-empty pile leaves every card in play once more than the pile holds it, so every pile card is in play at least twice. |
| `Findings.LastCardPlayed` | server.js:64-87 | Seat 0 plays its only card, a number card, onto an empty pile. Its hand is then empty, seat 1 has the turn, and no card is lost. |
| `Findings.RedealWitness` | server.js:56-60 | Seat 0 holds only the 2 of Spades and seat 1 the other 51 cards. After seat 0 plays the 2, all 52 cards are in play, `Inv` holds, and a spectator's connection puts the 2 in play exactly twice. |
| `Findings.JoinDealingOnceKeepsCards` | server.js:56-60 | The corrected join deals only when no card is in play. It never duplicates or loses a card. |
| `Findings.StaleChallengerThrows` | server.js:107-112 | A Jack from seat 1, then seat 0's departure, then a card from the remaining player: `playCard` throws. |
| `Findings.SeatedChallengerNoThrow` | server.js:76-78 | While the challenger's seat exists, `playCard` never throws. |
| `Findings.Step` | server.js:49-113 | Each event on the corrected server keeps the state sound (`Inv`, challenger seated, no card twice). A play never throws. |
| `Findings.Run` | server.js:49-113 | Any sequence of events on the corrected server ends in a sound state. |
| `Findings.RunSound` | server.js:49-113 | From the initial state, the corrected server never throws and never duplicates a card. |
| `Findings.StepKeepsCompleteDeck` | server.js:64-105 | Once all 52 cards are in play, every event except a departure keeps them all, each once. |

## Left out

- Express, the http server, socket.io setup, `server.listen`, and the
  `updateState` and `notification` broadcasts are transport. `SlapResult.Won`
  stands for the moment the notification is sent. The text of the
  notification is not modelled.
- The shuffle `sort(() => Math.random() - 0.5)` is random. A join receives the
  deck as a parameter, which must be a permutation of the deck built by the
  loops (`IsShuffledDeck`).
- Concurrency: Node runs one handler at a time, so each handler is one
  atomic method.
- Socket ids are strings compared only for equality. The model does not
  assume that ids are unique.
- Player entries are values in a sequence rather than shared objects. No
  entry of `players` is referenced from anywhere else, so no aliasing is lost.
- What happens after `playCard` throws (whether the process stops) is outside
  the model. The model keeps only the state at the moment of the throw.
- There is no win condition. The engine never detects a player with no cards.

## Findings

| source | as written | input that shows it | evidently intended | confidence | as-written member | corrected member |
|---|---|---|---|---|---|---|
| server.js:56-60 | Any new connection deals a fresh deck when two seats are taken and seat 0's hand is empty. The pile keeps its cards. | Seat 0 plays its last card onto the pile, then any socket connects (a spectator, say). Every pile card is then in play twice. | Deal only when two seats are taken and no card is in play | not executed; high | `Findings.JoinRedealDuplicates` | `Findings.JoinDealingOnce` |
| server.js:107-112 | A departure keeps the open challenge, but `filter` shifts the remaining player to seat 0, so `challenger` may name no seat. | Seat 1 plays a Jack, seat 0 disconnects, and the remaining player plays a number card. Line 78 then reads `.hand` of `undefined`. | The reset on departure also discards the challenge | not executed; high | `Findings.StaleChallengerThrows` | `Findings.DisconnectResetting` |

`Server.GameState` models the handlers as written. The corrected server
(`Findings.Step`, `Findings.Run`) uses `Findings.JoinDealingOnce` and
`Findings.DisconnectResetting` in their place.
