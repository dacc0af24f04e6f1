/** The slap pattern matcher `checkSlap` over the pile, whose index 0 is
    the card played last. */
module PileMatcher {
  import opened Cards

  // The five rules of the game, each stated on its own. The matcher below
  // follows the source's sequence of early returns instead.

  /** Double: the top two cards have the same rank. */
  predicate Double(pile: seq<Card>)
  {
    |pile| >= 2 && pile[0].v == pile[1].v
  }

  /** Sandwich: the top card and the third card have the same rank. */
  predicate Sandwich(pile: seq<Card>)
  {
    |pile| >= 3 && pile[0].v == pile[2].v
  }

  /** Tens: the top two cards are number cards whose values add up to 10. */
  predicate Tens(pile: seq<Card>)
  {
    |pile| >= 2 && pile[0].v.Number? && pile[1].v.Number? && pile[0].v.pip + pile[1].v.pip == 10
  }

  /** Marriage: the top two cards are a King and a Queen, in either order. */
  predicate Marriage(pile: seq<Card>)
  {
    |pile| >= 2 && {pile[0].v, pile[1].v} == {King, Queen}
  }

  /** Top-bottom: a pile of three or more whose top and bottom cards match. */
  predicate TopBottom(pile: seq<Card>)
  {
    |pile| >= 3 && pile[0].v == pile[|pile| - 1].v
  }

  /** The rules that only look at the top of the pile. */
  predicate TopRule(pile: seq<Card>)
  {
    Double(pile) || Sandwich(pile) || Tens(pile) || Marriage(pile)
  }

  predicate Slappable(pile: seq<Card>)
  {
    TopRule(pile) || TopBottom(pile)
  }

  /** `checkSlap(pile)`: true exactly when one of the five rules holds; a
      pile of fewer than two cards is never slappable. */
  function CheckSlap(pile: seq<Card>): (r: bool)
    ensures r <==> Slappable(pile)
    ensures |pile| < 2 ==> !r
  {
    if |pile| < 2 then false
    else
      var t1, t2 := pile[0], pile[1];
      if t1.v == t2.v then true
      else if |pile| >= 3 && t1.v == pile[2].v then true
      else
        var val1, val2 := ParseInt(t1.v), ParseInt(t2.v);
        if val1 != 0 && val2 != 0 && val1 + val2 == 10 then true
        else if (t1.v == King && t2.v == Queen) || (t1.v == Queen && t2.v == King) then true
        else if |pile| >= 3 && t1.v == pile[|pile| - 1].v then true
        else false
  }

  /** One pile for each of the five rules, and two piles that match none. */
  lemma SlapExamples()
    ensures CheckSlap([Card(Number(7), Hearts), Card(Number(7), Spades)])
    ensures CheckSlap([Card(Number(5), Clubs), Card(Number(9), Diamonds), Card(Number(5), Hearts)])
    ensures CheckSlap([Card(Number(6), Diamonds), Card(Number(4), Spades)])
    ensures CheckSlap([Card(King, Spades), Card(Queen, Hearts)])
    ensures CheckSlap([Card(Queen, Clubs), Card(King, Diamonds)])
    ensures CheckSlap([Card(Number(3), Spades), Card(Number(8), Hearts), Card(Number(9), Diamonds), Card(Number(3), Clubs)])
    ensures !CheckSlap([Card(Number(2), Spades), Card(Number(5), Hearts)])
    ensures !CheckSlap([Card(Ace, Spades), Card(Number(9), Hearts)])
  {
  }

  /** A burn puts a card under a pile of two or more. The pile then becomes
      slappable exactly when a top rule already held or the burned card has
      the top card's rank (it is the new bottom, and for a pile of two also
      the new third card). */
  lemma BurnedPileSlappable(pile: seq<Card>, burned: Card)
    requires |pile| >= 2
    ensures CheckSlap(pile + [burned]) <==> TopRule(pile) || pile[0].v == burned.v
  {
    var p := pile + [burned];
    assert p[0] == pile[0] && p[1] == pile[1] && p[|p| - 1] == burned;
    if |pile| >= 3 {
      assert p[2] == pile[2];
    } else {
      assert p[2] == burned;
    }
  }
}
