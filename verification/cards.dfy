/** Playing cards (Card.java): a rank label and a suit label, their blackjack point
    value and their text forms. */
module Cards {
  import opened Results

  datatype Rank = Ace | Two | Three | Four | Five | Six | Seven | Eight | Nine | Ten | Jack | Queen | King

  datatype Suit = Diamonds | Hearts | Spades | Clubs

  datatype Card = Card(rank: Rank, suit: Suit)

  /** The rank labels in the order the deck builder enumerates them ("A", "2", ..., "K"). */
  const Ranks: seq<Rank> := [Ace, Two, Three, Four, Five, Six, Seven, Eight, Nine, Ten, Jack, Queen, King]

  /** The suit labels in the order the deck builder enumerates them ("D", "H", "S", "C"). */
  const Suits: seq<Suit> := [Diamonds, Hearts, Spades, Clubs]

  /** The `value` string the source stores for each rank. */
  function Label(r: Rank): string
  {
    match r
    case Ace => "A"
    case Two => "2"
    case Three => "3"
    case Four => "4"
    case Five => "5"
    case Six => "6"
    case Seven => "7"
    case Eight => "8"
    case Nine => "9"
    case Ten => "10"
    case Jack => "J"
    case Queen => "Q"
    case King => "K"
  }

  /** The `suit` string the source stores for each suit. */
  function SuitLabel(s: Suit): string
  {
    match s
    case Diamonds => "D"
    case Hearts => "H"
    case Spades => "S"
    case Clubs => "C"
  }

  /** Position of a rank in `Ranks`. */
  function RankIndex(r: Rank): (i: nat)
    ensures i < |Ranks| && Ranks[i] == r
  {
    match r
    case Ace => 0
    case Two => 1
    case Three => 2
    case Four => 3
    case Five => 4
    case Six => 5
    case Seven => 6
    case Eight => 7
    case Nine => 8
    case Ten => 9
    case Jack => 10
    case Queen => 11
    case King => 12
  }

  /** Position of a suit in `Suits`. */
  function SuitIndex(s: Suit): (i: nat)
    ensures i < |Suits| && Suits[i] == s
  {
    match s
    case Diamonds => 0
    case Hearts => 1
    case Spades => 2
    case Clubs => 3
  }

  /** `Ranks` lists each rank once: a position determines its rank and back. */
  lemma RanksDistinct(i: int)
    requires 0 <= i < |Ranks|
    ensures RankIndex(Ranks[i]) == i
  {
    if i == 0 {} else if i == 1 {} else if i == 2 {} else if i == 3 {} else if i == 4 {}
    else if i == 5 {} else if i == 6 {} else if i == 7 {} else if i == 8 {} else if i == 9 {}
    else if i == 10 {} else if i == 11 {} else {}
  }

  /** `Suits` lists each suit once. */
  lemma SuitsDistinct(i: int)
    requires 0 <= i < |Suits|
    ensures SuitIndex(Suits[i]) == i
  {
    if i == 0 {} else if i == 1 {} else if i == 2 {} else {}
  }

  predicate IsDigit(ch: char)
  {
    '0' <= ch <= '9'
  }

  predicate AllDigits(s: string)
  {
    forall i :: 0 <= i < |s| ==> IsDigit(s[i])
  }

  /** The value of a string of decimal digits, read most significant digit first
      as `Integer.parseInt` reads it (unbounded: Java's 32-bit overflow is not modelled). */
  function DecimalValue(s: string): nat
    requires AllDigits(s)
  {
    if |s| == 0 then 0
    else DecimalValue(s[..|s| - 1]) * 10 + (s[|s| - 1] as int - '0' as int)
  }

  /** The ranks whose label occurs in "AJQK", the source's test for a non-numeric label. */
  predicate IsAceOrFace(r: Rank)
  {
    r == Ace || r == Jack || r == Queen || r == King
  }

  /** `isAce`: the label is exactly "A". */
  predicate IsAce(c: Card)
  {
    Label(c.rank) == "A"
  }

  /** `points`: 11 for the ace, 10 for a face card, otherwise the label read as a number. */
  function Points(c: Card): (p: int)
    ensures 2 <= p <= 11
    ensures p == 11 <==> c.rank == Ace
    ensures p == 11 <==> IsAce(c)
    ensures c.rank == Jack || c.rank == Queen || c.rank == King ==> p == 10
  {
    if IsAceOrFace(c.rank) then (if IsAce(c) then 11 else 10)
    else
      NumberLabelValue(c.rank);
      DecimalValue(Label(c.rank))
  }

  /** The label of a number rank reads as one more than the rank's position in `Ranks`. */
  lemma NumberLabelValue(r: Rank)
    requires !IsAceOrFace(r)
    ensures AllDigits(Label(r))
    ensures DecimalValue(Label(r)) == RankIndex(r) + 1
  {
    if r == Ten {
      assert "10"[..1] == "1";
    }
  }

  /** A number rank is worth the number it is named after: the rank at position `i`
      (1 to 9) of `Ranks` is labelled with the decimal number `i + 1` and worth that much. */
  lemma NumberRankPoints(i: int, s: Suit)
    requires 1 <= i <= 9
    ensures !IsAceOrFace(Ranks[i])
    ensures Points(Card(Ranks[i], s)) == i + 1
  {
    RanksDistinct(i);
    NumberLabelValue(Ranks[i]);
  }

  /** `toString`: the rank label, a dash, the suit label. */
  function Text(c: Card): string
  {
    Label(c.rank) + "-" + SuitLabel(c.suit)
  }

  /** `imagePath`: the resource path of the card's picture, which is its text form
      between "/card/" and ".png". */
  function ImagePath(c: Card): (path: string)
    ensures path == "/card/" + Text(c) + ".png"
  {
    "/card/" + Label(c.rank) + "-" + SuitLabel(c.suit) + ".png"
  }

  /** Inverse of `Label`. */
  function ParseRank(s: string): Option<Rank>
  {
    if s == "A" then Some(Ace)
    else if s == "2" then Some(Two)
    else if s == "3" then Some(Three)
    else if s == "4" then Some(Four)
    else if s == "5" then Some(Five)
    else if s == "6" then Some(Six)
    else if s == "7" then Some(Seven)
    else if s == "8" then Some(Eight)
    else if s == "9" then Some(Nine)
    else if s == "10" then Some(Ten)
    else if s == "J" then Some(Jack)
    else if s == "Q" then Some(Queen)
    else if s == "K" then Some(King)
    else None
  }

  /** Inverse of `SuitLabel`. */
  function ParseSuit(s: string): Option<Suit>
  {
    if s == "D" then Some(Diamonds)
    else if s == "H" then Some(Hearts)
    else if s == "S" then Some(Spades)
    else if s == "C" then Some(Clubs)
    else None
  }

  /** Reads a card back from its text form: the last character is the suit, the
      characters before the dash are the rank. */
  function ParseText(t: string): Option<Card>
  {
    if |t| < 3 || t[|t| - 2] != '-' then None
    else
      match (ParseRank(t[..|t| - 2]), ParseSuit(t[|t| - 1..]))
      case (Some(r), Some(s)) => Some(Card(r, s))
      case _ => None
  }

  lemma {:induction false} LabelRoundTrip(r: Rank)
    ensures ParseRank(Label(r)) == Some(r)
    ensures 1 <= |Label(r)| <= 2
  {
    match r
    case Ace => case Two => case Three => case Four => case Five => case Six =>
    case Seven => case Eight => case Nine => case Ten => case Jack => case Queen => case King =>
  }

  /** The text form of a card determines the card. */
  lemma TextRoundTrip(c: Card)
    ensures ParseText(Text(c)) == Some(c)
  {
    var t := Text(c);
    LabelRoundTrip(c.rank);
    assert t[..|t| - 2] == Label(c.rank);
    assert t[|t| - 1..] == SuitLabel(c.suit);
    match c.suit
    case Diamonds => case Hearts => case Spades => case Clubs =>
  }

  /** Two cards with the same text (or the same image path) are the same card. */
  lemma TextInjective(a: Card, b: Card)
    ensures Text(a) == Text(b) <==> a == b
    ensures ImagePath(a) == ImagePath(b) <==> a == b
  {
    TextRoundTrip(a);
    TextRoundTrip(b);
    if ImagePath(a) == ImagePath(b) {
      var pa, pb := ImagePath(a), ImagePath(b);
      assert Text(a) == pa[6..|pa| - 4];
      assert Text(b) == pb[6..|pb| - 4];
    }
  }

  /** `isAce` holds exactly for the ace. */
  lemma AceIffLabelA(c: Card)
    ensures IsAce(c) <==> c.rank == Ace
  {
    LabelRoundTrip(c.rank);
  }
}
