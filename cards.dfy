/** Cards of the game: the `suits` and `values` tables, the `faceChances`
    table and the numeric reading of a rank that the Tens rule uses. */
module Cards {

  datatype Option<+T> = None | Some(value: T)

  /** The four entries of `suits`. */
  datatype Suit = Spades | Hearts | Diamonds | Clubs

  /** Face value of a number card, "2" up to "10". */
  type Pip = n: int | 2 <= n <= 10 witness 2

  /** The thirteen entries of `values`; the source keeps them as strings and
      compares them with `===`, which is equality of these values. */
  datatype Rank = Ace | Number(pip: Pip) | Jack | Queen | King

  /** A card `{v, s}`. */
  datatype Card = Card(v: Rank, s: Suit)

  const Suits: seq<Suit> := [Spades, Hearts, Diamonds, Clubs]

  const Values: seq<Rank> :=
    [Ace, Number(2), Number(3), Number(4), Number(5), Number(6), Number(7),
     Number(8), Number(9), Number(10), Jack, Queen, King]

  /** `parseInt(v) || 0`: the face value of a number card; "A", "J", "Q" and
      "K" parse to NaN, which `|| 0` turns into 0. */
  function ParseInt(r: Rank): nat
  {
    if r.Number? then r.pip else 0
  }

  /** `faceChances[v]`: how many cards the opponent must play to answer a
      face card. 0 stands for a missing entry (`undefined`, which is falsy).
      The cards that open a challenge are exactly those that are not numeric. */
  function FaceChances(r: Rank): (n: nat)
    ensures n <= 4
    ensures n > 0 <==> ParseInt(r) == 0
  {
    match r
    case Jack => 1
    case Queen => 2
    case King => 3
    case Ace => 4
    case Number(_) => 0
  }

  /** Position of a suit in `suits`. */
  function SuitIndex(s: Suit): (i: nat)
    ensures i < |Suits| && Suits[i] == s
  {
    match s
    case Spades => 0
    case Hearts => 1
    case Diamonds => 2
    case Clubs => 3
  }

  /** Position of a rank in `values`. */
  function ValueIndex(r: Rank): (i: nat)
    ensures i < |Values| && Values[i] == r
  {
    match r
    case Ace => 0
    case Number(n) => n - 1
    case Jack => 10
    case Queen => 11
    case King => 12
  }
}
