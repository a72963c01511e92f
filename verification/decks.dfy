/** The 52-card deck (Deck.java): built suit by suit, shuffled, dealt from the end of
    the list. */
module Decks {
  import opened Results
  import opened Cards

  /** Failures of the game layer: drawing from an empty deck, acting on a finished round. */
  datatype GameError = EmptyDeck | RoundAlreadySettled

  datatype Deck = Deck(cards: seq<Card>)

  /** The deck in build order: every suit of `Suits` in turn, and within a suit every
      rank of `Ranks` in turn, so position `13 * s + r` holds rank `r` of suit `s`. */
  function Canonical(): (d: seq<Card>)
    ensures |d| == 52
    ensures FullDeck(multiset(d))
  {
    var d := seq(52, i requires 0 <= i < 52 => Card(Ranks[i % 13], Suits[i / 13]));
    CanonicalDistinct(d);
    forall c: Card ensures c in d {
      assert d[13 * SuitIndex(c.suit) + RankIndex(c.rank)] == c;
    }
    forall c: Card ensures multiset(d)[c] == 1 {
      DistinctCount(d, c);
    }
    d
  }

  /** One copy of each of the 52 cards, in any order. */
  ghost predicate FullDeck(m: multiset<Card>)
  {
    forall c: Card :: m[c] == 1
  }

  ghost predicate Distinct(s: seq<Card>)
  {
    forall i, j :: 0 <= i < j < |s| ==> s[i] != s[j]
  }

  lemma CanonicalDistinct(d: seq<Card>)
    requires |d| == 52
    requires forall i :: 0 <= i < 52 ==> d[i] == Card(Ranks[i % 13], Suits[i / 13])
    ensures Distinct(d)
  {
    forall i, j | 0 <= i < j < 52 ensures d[i] != d[j] {
      RanksDistinct(i % 13);
      RanksDistinct(j % 13);
      SuitsDistinct(i / 13);
      SuitsDistinct(j / 13);
      assert i == 13 * (i / 13) + i % 13;
      assert j == 13 * (j / 13) + j % 13;
    }
  }

  /** In a sequence without repetitions every member occurs exactly once. */
  lemma {:induction false} DistinctCount(s: seq<Card>, x: Card)
    requires Distinct(s)
    ensures multiset(s)[x] == if x in s then 1 else 0
    decreases |s|
  {
    if |s| > 0 {
      var s' := s[..|s| - 1];
      assert s == s' + [s[|s| - 1]];
      DistinctCount(s', x);
      if x == s[|s| - 1] {
        assert x !in s';
      }
    }
  }

  /** The random choices of one shuffle of `n` cards: the `k`-th choice is drawn
      uniformly from `0 .. n - k - 1`, one choice for each of the `n - 1` swaps. */
  predicate ValidPicks(picks: seq<int>, n: int)
  {
    && |picks| == (if n > 1 then n - 1 else 0)
    && forall k :: 0 <= k < |picks| ==> 0 <= picks[k] < n - k
  }

  function Swap(s: seq<Card>, i: int, j: int): (r: seq<Card>)
    requires 0 <= i < |s| && 0 <= j < |s|
    ensures |r| == |s| && multiset(r) == multiset(s)
    ensures r[i] == s[j] && r[j] == s[i]
    ensures forall k :: 0 <= k < |s| && k != i && k != j ==> r[k] == s[k]
  {
    s[i := s[j]][j := s[i]]
  }

  /** `Collections.shuffle` on a random-access list: for `i` from `n` down to 2, swap
      position `i - 1` with a position chosen below `i`. */
  function ShuffleTop(s: seq<Card>, n: int, picks: seq<int>): (r: seq<Card>)
    requires 0 <= n <= |s|
    requires ValidPicks(picks, n)
    ensures |r| == |s|
    ensures multiset(r) == multiset(s)
    ensures r[n..] == s[n..]
    decreases n
  {
    if n <= 1 then s
    else
      var s' := Swap(s, n - 1, picks[0]);
      SwapKeepsTail(s, n - 1, picks[0]);
      ValidPicksTail(picks, n);
      var r := ShuffleTop(s', n - 1, picks[1..]);
      TailOfTail(r, n);
      TailOfTail(s', n);
      r
  }

  lemma SwapKeepsTail(s: seq<Card>, i: int, j: int)
    requires 0 <= j <= i < |s|
    ensures Swap(s, i, j)[i + 1..] == s[i + 1..]
  {
  }

  /** After the first swap, the remaining choices are valid for one position fewer. */
  lemma ValidPicksTail(picks: seq<int>, n: int)
    requires n > 1 && ValidPicks(picks, n)
    ensures ValidPicks(picks[1..], n - 1)
  {
    forall k | 0 <= k < |picks[1..]|
      ensures 0 <= picks[1..][k] < n - 1 - k
    {
      assert picks[1..][k] == picks[k + 1];
    }
  }

  lemma TailOfTail(s: seq<Card>, n: int)
    requires 1 <= n <= |s|
    ensures s[n..] == s[n - 1..][1..]
  {
  }

  /** `shuffled`: the build-order deck put through the shuffle; it holds every one of
      the 52 cards exactly once, whatever the random choices were. */
  function Shuffled(picks: seq<int>): (d: Deck)
    requires ValidPicks(picks, 52)
    ensures |d.cards| == 52
    ensures multiset(d.cards) == multiset(Canonical())
    ensures FullDeck(multiset(d.cards))
  {
    var c := Canonical();
    Deck(ShuffleTop(c, |c|, picks))
  }

  function Remaining(d: Deck): nat
  {
    |d.cards|
  }

  datatype Drawn = Drawn(card: Card, rest: Deck)

  /** `draw`: fails on an empty deck; otherwise takes the last card, leaving the other
      cards in their order. */
  function Draw(d: Deck): (res: Result<Drawn, GameError>)
    ensures res.Err? <==> Remaining(d) == 0
    ensures res.Err? ==> res.error == EmptyDeck
    ensures res.Ok? ==> res.value.card == d.cards[|d.cards| - 1]
    ensures res.Ok? ==> res.value.rest.cards == d.cards[..|d.cards| - 1]
    ensures res.Ok? ==> Remaining(res.value.rest) == Remaining(d) - 1
    ensures res.Ok? ==> multiset(res.value.rest.cards) + multiset{res.value.card} == multiset(d.cards)
  {
    if |d.cards| == 0 then Err(EmptyDeck)
    else
      var n := |d.cards|;
      assert d.cards == d.cards[..n - 1] + [d.cards[n - 1]];
      Ok(Drawn(d.cards[n - 1], Deck(d.cards[..n - 1])))
  }

  /** The cards `n` successive draws return, in the order they are drawn. */
  function TopCards(cards: seq<Card>, n: nat): (top: seq<Card>)
    requires n <= |cards|
    ensures |top| == n
  {
    if n == 0 then [] else TopCards(cards, n - 1) + [cards[|cards| - n]]
  }

  /** The first `n` of `m` successive draws are the `n` draws themselves. */
  lemma {:induction false} TopCardsPrefix(cards: seq<Card>, n: nat, m: nat)
    requires n <= m <= |cards|
    ensures TopCards(cards, m)[..n] == TopCards(cards, n)
    decreases m
  {
    if m > n {
      TopCardsPrefix(cards, n, m - 1);
      assert TopCards(cards, m)[..m - 1] == TopCards(cards, m - 1);
      assert TopCards(cards, m)[..n] == TopCards(cards, m)[..m - 1][..n];
    }
  }

  /** Drawing `n` cards one at a time removes exactly the cards `TopCards` lists:
      drawn and remaining cards together are the cards the deck started with. */
  lemma {:induction false} TopCardsConserve(cards: seq<Card>, n: nat)
    requires n <= |cards|
    ensures multiset(TopCards(cards, n)) + multiset(cards[..|cards| - n]) == multiset(cards)
  {
    if n == 0 {
      assert cards[..|cards|] == cards;
    } else {
      var m := |cards| - n;
      TopCardsConserve(cards, n - 1);
      TopCardsSnoc(cards, n);
      PrefixSnoc(cards, m);
      var drawn, kept, x := multiset(TopCards(cards, n - 1)), multiset(cards[..m]), multiset{cards[m]};
      assert (drawn + x) + kept == drawn + (kept + x);
    }
  }

  lemma TopCardsSnoc(cards: seq<Card>, n: nat)
    requires 0 < n <= |cards|
    ensures multiset(TopCards(cards, n)) == multiset(TopCards(cards, n - 1)) + multiset{cards[|cards| - n]}
  {
  }

  lemma PrefixSnoc(cards: seq<Card>, m: nat)
    requires m < |cards|
    ensures multiset(cards[..m + 1]) == multiset(cards[..m]) + multiset{cards[m]}
  {
    assert cards[..m + 1] == cards[..m] + [cards[m]];
  }

  /** Each step of `TopCards` is one `Draw` from what is left of the deck. */
  lemma DrawExtendsTopCards(cards: seq<Card>, n: nat)
    requires n < |cards|
    ensures Draw(Deck(cards[..|cards| - n])).Ok?
    ensures var drawn := Draw(Deck(cards[..|cards| - n])).value;
      && TopCards(cards, n + 1) == TopCards(cards, n) + [drawn.card]
      && drawn.rest.cards == cards[..|cards| - (n + 1)]
  {
  }
}
