/** The deck: `createDeck` builds every (value, suit) pair with nested
    `forEach` pushes and then shuffles it. */
module Deck {
  import opened Cards

  /** The deck before the shuffle: suits outer, values inner, so card
      13 * i + j is value j of suit i. */
  function FullDeck(): (d: seq<Card>)
  {
    seq(|Suits| * |Values|, k requires 0 <= k < |Suits| * |Values| => Card(Values[k % 13], Suits[k / 13]))
  }

  /** A deck as `createDeck` returns it: some ordering of the full deck. */
  predicate IsShuffledDeck(deck: seq<Card>)
  {
    multiset(deck) == multiset(FullDeck())
  }

  /** The two nested `forEach` loops of `createDeck`, before the shuffle. */
  method CreateDeck() returns (deck: seq<Card>)
    ensures deck == FullDeck()
  {
    deck := [];
    var i := 0;
    while i < |Suits|
      invariant 0 <= i <= |Suits|
      invariant deck == FullDeck()[..13 * i]
    {
      var j := 0;
      while j < |Values|
        invariant 0 <= j <= |Values|
        invariant deck == FullDeck()[..13 * i + j]
      {
        assert (13 * i + j) % 13 == j && (13 * i + j) / 13 == i;
        assert FullDeck()[..13 * i + j + 1] == FullDeck()[..13 * i + j] + [FullDeck()[13 * i + j]];
        deck := deck + [Card(Values[j], Suits[i])];
        j := j + 1;
      }
      i := i + 1;
    }
  }

  /** Where a card sits in the full deck. */
  function DeckIndex(c: Card): (k: nat)
    ensures k < |FullDeck()| && FullDeck()[k] == c
  {
    SuitIndex(c.s) * 13 + ValueIndex(c.v)
  }

  lemma ValuesDistinct(i: nat, j: nat)
    requires i < j < |Values|
    ensures Values[i] != Values[j]
  {
    assert ValueIndex(Values[i]) == i by {
      assert i == 0 || i == 1 || i == 2 || i == 3 || i == 4 || i == 5 || i == 6 || i == 7 || i == 8 || i == 9 || i == 10 || i == 11 || i == 12;
    }
    assert ValueIndex(Values[j]) == j by {
      assert j == 1 || j == 2 || j == 3 || j == 4 || j == 5 || j == 6 || j == 7 || j == 8 || j == 9 || j == 10 || j == 11 || j == 12;
    }
  }

  lemma SuitsDistinct(i: nat, j: nat)
    requires i < j < |Suits|
    ensures Suits[i] != Suits[j]
  {
    assert SuitIndex(Suits[i]) == i by {
      assert i == 0 || i == 1 || i == 2;
    }
  }

  /** No card appears twice in the full deck. */
  lemma FullDeckDistinct(i: nat, j: nat)
    requires i < j < |FullDeck()|
    ensures FullDeck()[i] != FullDeck()[j]
  {
    if i / 13 == j / 13 {
      assert i % 13 < j % 13;
      ValuesDistinct(i % 13, j % 13);
    } else {
      assert i / 13 < j / 13;
      SuitsDistinct(i / 13, j / 13);
    }
  }

  /** A value that occurs at exactly one position of a sequence occurs once
      in its multiset. */
  lemma OccursOnce<T>(s: seq<T>, k: nat, x: T)
    requires k < |s| && s[k] == x
    requires forall i :: 0 <= i < |s| && i != k ==> s[i] != x
    ensures multiset(s)[x] == 1
  {
    assert s == s[..k] + [x] + s[k + 1..];
    assert x !in s[..k];
    assert x !in s[k + 1..];
  }

  /** The full deck holds 52 cards and every card exactly once. */
  lemma DeckComplete()
    ensures |FullDeck()| == 52
    ensures forall c: Card :: multiset(FullDeck())[c] == 1
  {
    forall c: Card ensures multiset(FullDeck())[c] == 1 {
      var k := DeckIndex(c);
      forall i | 0 <= i < |FullDeck()| && i != k ensures FullDeck()[i] != c {
        if i < k { FullDeckDistinct(i, k); } else { FullDeckDistinct(k, i); }
      }
      OccursOnce(FullDeck(), k, c);
    }
  }

  /** Dealing `deck.slice(0, 26)` and `deck.slice(26, 52)` from a shuffled deck
      hands out every card of the full deck once between the two halves. */
  lemma ShuffledDeckHalves(deck: seq<Card>)
    requires IsShuffledDeck(deck)
    ensures |deck| == 52
    ensures multiset(deck[..26]) + multiset(deck[26..52]) == multiset(FullDeck())
  {
    assert |multiset(deck)| == |multiset(FullDeck())|;
    assert deck == deck[..26] + deck[26..52];
  }
}
