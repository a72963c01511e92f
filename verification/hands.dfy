/** A participant's hand (Hand.java) and the blackjack total with soft-ace reduction. */
module Hands {
  import opened Results
  import opened Cards

  datatype Hand = Hand(cards: seq<Card>)

  /** `clear`: the hand after all cards are removed. */
  function Clear(h: Hand): (r: Hand)
    ensures Size(r) == 0 && Total(r.cards) == 0
  {
    Hand([])
  }

  /** `add`: the card goes at the end and the earlier cards keep their places. */
  function Add(h: Hand, c: Card): (r: Hand)
    ensures Size(r) == Size(h) + 1
    ensures r.cards[Size(h)] == c
    ensures r.cards[..Size(h)] == h.cards
  {
    Hand(h.cards + [c])
  }

  function Size(h: Hand): nat
  {
    |h.cards|
  }

  /** What a card counts for when a hand is summed: its points (aces as 11), or one
      for an ace. */
  datatype Measure = ByPoints | ByAces

  function Weight(m: Measure, c: Card): int
  {
    match m
    case ByPoints => Points(c)
    case ByAces => AceWeight(c)
  }

  /** Sum over the cards of what each counts for under `m`, first card to last. */
  function SumBy(cards: seq<Card>, m: Measure): int
  {
    if |cards| == 0 then 0
    else SumBy(cards[..|cards| - 1], m) + Weight(m, cards[|cards| - 1])
  }

  function AceWeight(c: Card): int
  {
    if IsAce(c) then 1 else 0
  }

  /** Points with every ace counted as 11. */
  function RawSum(cards: seq<Card>): int
  {
    SumBy(cards, ByPoints)
  }

  /** Number of aces held. */
  function AceCount(cards: seq<Card>): int
  {
    SumBy(cards, ByAces)
  }

  /** The reduction loop: while the sum is over 21 and an ace still counts as 11,
      count one more ace as 1. */
  function Reduce(sum: int, aces: int): int
    decreases aces
  {
    if sum > 21 && aces > 0 then Reduce(sum - 10, aces - 1) else sum
  }

  /** `total()`: the blackjack total of the cards. */
  function Total(cards: seq<Card>): int
  {
    Reduce(RawSum(cards), AceCount(cards))
  }

  /** The extra cards that are present; a `null` extra is skipped. */
  function Present(extras: seq<Option<Card>>): (cs: seq<Card>)
    ensures |cs| <= |extras|
  {
    if |extras| == 0 then []
    else
      var rest := Present(extras[..|extras| - 1]);
      match extras[|extras| - 1]
      case None => rest
      case Some(c) => rest + [c]
  }

  /** `total(extras...)`: the held cards are summed first, then the present extras,
      and only then are aces reduced. */
  function TotalWith(cards: seq<Card>, extras: seq<Option<Card>>): int
  {
    var more := Present(extras);
    Reduce(RawSum(cards) + RawSum(more), AceCount(cards) + AceCount(more))
  }

  // ---------------------------------------------------------------------------
  // Sums over card sequences

  lemma {:induction false} SumByAppend(a: seq<Card>, b: seq<Card>, m: Measure)
    ensures SumBy(a + b, m) == SumBy(a, m) + SumBy(b, m)
    decreases |b|
  {
    if |b| == 0 {
      assert a + b == a;
    } else {
      var b' := b[..|b| - 1];
      assert (a + b)[..|a + b| - 1] == a + b';
      SumByAppend(a, b', m);
    }
  }

  lemma SumBySingle(c: Card, m: Measure)
    ensures SumBy([c], m) == Weight(m, c)
  {
    assert [c][..0] == [];
  }

  lemma SumByMiddle(pre: seq<Card>, x: Card, post: seq<Card>, m: Measure)
    ensures SumBy(pre + [x] + post, m) == SumBy(pre + post, m) + Weight(m, x)
  {
    SumByAppend(pre + [x], post, m);
    SumByAppend(pre, [x], m);
    SumBySingle(x, m);
    SumByAppend(pre, post, m);
  }

  /** Taking one card out of the sequence takes its weight out of the sum. */
  lemma SumByRemove(b: seq<Card>, i: int, m: Measure)
    requires 0 <= i < |b|
    ensures SumBy(b, m) == SumBy(b[..i] + b[i + 1..], m) + Weight(m, b[i])
  {
    SplitAt(b, i);
    SumByMiddle(b[..i], b[i], b[i + 1..], m);
  }

  lemma SplitAt(b: seq<Card>, i: int)
    requires 0 <= i < |b|
    ensures b == b[..i] + [b[i]] + b[i + 1..]
  {
  }

  lemma MultisetRemove(b: seq<Card>, i: int)
    requires 0 <= i < |b|
    ensures multiset(b[..i] + b[i + 1..]) == multiset(b) - multiset{b[i]}
  {
    assert b == b[..i] + [b[i]] + b[i + 1..];
  }

  /** A sum over cards does not depend on the order of the cards. */
  lemma {:induction false} SumByPermutation(a: seq<Card>, b: seq<Card>, m: Measure)
    requires multiset(a) == multiset(b)
    ensures SumBy(a, m) == SumBy(b, m)
    decreases |a|
  {
    if |a| == 0 {
      assert |b| == |multiset(b)| == 0;
    } else {
      var x := a[|a| - 1];
      var a' := a[..|a| - 1];
      MultisetRemove(a, |a| - 1);
      assert a[..|a| - 1] + a[|a|..] == a';
      assert x in multiset(b);
      var i :| 0 <= i < |b| && b[i] == x;
      MultisetRemove(b, i);
      SumByPermutation(a', b[..i] + b[i + 1..], m);
      SumByRemove(b, i, m);
    }
  }

  /** Every card contributes at least 1 once its ace, if any, is counted as 1. */
  lemma {:induction false} HardSumAtLeastCount(cards: seq<Card>)
    ensures AceCount(cards) >= 0
    ensures RawSum(cards) - 10 * AceCount(cards) >= |cards|
    decreases |cards|
  {
    if |cards| > 0 {
      HardSumAtLeastCount(cards[..|cards| - 1]);
    }
  }

  // ---------------------------------------------------------------------------
  // Properties of the soft-ace reduction

  /** The reduction counts `k` aces as 1, where `k` is the least count that brings the
      sum to 21 or below, or every ace when no count does. */
  lemma {:induction false} ReduceIsLeastSoftening(sum: int, aces: int)
    requires aces >= 0
    ensures var t := Reduce(sum, aces);
      && (sum - t) % 10 == 0
      && 0 <= (sum - t) / 10 <= aces
      && ((sum - t) / 10 == 0 || sum - 10 * ((sum - t) / 10 - 1) > 21)
      && (t <= 21 || (sum - t) / 10 == aces)
    decreases aces
  {
    if sum > 21 && aces > 0 {
      ReduceIsLeastSoftening(sum - 10, aces - 1);
    }
  }

  /** `total` is the raw sum less 10 for each of the fewest aces that must be counted
      as 1 to reach 21 or below (all of them when that is not enough). */
  lemma TotalIsLeastSoftening(cards: seq<Card>)
    ensures var raw, t := RawSum(cards), Total(cards);
      var k := (raw - t) / 10;
      && raw - t == 10 * k
      && 0 <= k <= AceCount(cards)
      && (k == 0 || raw - 10 * (k - 1) > 21)
      && (t <= 21 || k == AceCount(cards))
  {
    HardSumAtLeastCount(cards);
    ReduceIsLeastSoftening(RawSum(cards), AceCount(cards));
  }

  /** Two cards total 21 exactly when their points add up to 21: an ace and a
      ten-valued card. */
  lemma TotalOfPair(a: Card, b: Card)
    ensures Total([a, b]) == 21 <==> Points(a) + Points(b) == 21
  {
    SumByPair(a, b, ByPoints);
    SumByPair(a, b, ByAces);
  }

  lemma SumByPair(a: Card, b: Card, m: Measure)
    ensures SumBy([a, b], m) == Weight(m, a) + Weight(m, b)
  {
    assert [a, b][..1] == [a];
    assert [a][..0] == [];
    assert SumBy([a], m) == Weight(m, a);
  }

  /** With no more than 21 raw points, nothing is reduced. */
  lemma TotalOfSmallSum(cards: seq<Card>)
    requires RawSum(cards) <= 21
    ensures Total(cards) == RawSum(cards)
  {
  }

  /** A total over 21 means every ace is already counted as 1. */
  lemma BustTotalIsHard(cards: seq<Card>)
    ensures Total(cards) > 21 ==> Total(cards) == RawSum(cards) - 10 * AceCount(cards)
  {
    TotalIsLeastSoftening(cards);
  }

  /** A total is never below the number of cards held. */
  lemma TotalAtLeastSize(cards: seq<Card>)
    ensures Total(cards) >= |cards|
  {
    HardSumAtLeastCount(cards);
    ReduceIsLeastSoftening(RawSum(cards), AceCount(cards));
  }

  /** `total` does not depend on the order of the cards. */
  lemma TotalPermutation(a: seq<Card>, b: seq<Card>)
    requires multiset(a) == multiset(b)
    ensures Total(a) == Total(b)
  {
    SumByPermutation(a, b, ByPoints);
    SumByPermutation(a, b, ByAces);
  }

  /** `total(extra)` is the total of the hand with `extra` appended, and a `null`
      extra is ignored. */
  lemma TotalWithOne(cards: seq<Card>, extra: Option<Card>)
    ensures extra.Some? ==> TotalWith(cards, [extra]) == Total(cards + [extra.value])
    ensures extra.None? ==> TotalWith(cards, [extra]) == Total(cards)
  {
    PresentOne(extra);
    if extra.Some? {
      SumByAppend(cards, [extra.value], ByPoints);
      SumByAppend(cards, [extra.value], ByAces);
    }
  }

  /** A shown extra card is counted like a held one: its points join the sum and an
      ace joins the count. */
  lemma TotalWithShown(cards: seq<Card>, c: Card, sum: int, aces: int)
    requires sum == RawSum(cards) + Points(c) && aces == AceCount(cards) + AceWeight(c)
    ensures TotalWith(cards, [Some(c)]) == Reduce(sum, aces)
  {
    PresentOne(Some(c));
    SumBySingle(c, ByPoints);
    SumBySingle(c, ByAces);
  }

  lemma PresentOne(extra: Option<Card>)
    ensures extra.Some? ==> Present([extra]) == [extra.value]
    ensures extra.None? ==> Present([extra]) == []
  {
    assert [extra][..0] == [];
  }

  /** `total()` with no extras is the total of the held cards. */
  lemma TotalWithNone(cards: seq<Card>)
    ensures TotalWith(cards, []) == Total(cards)
  {
  }
}
