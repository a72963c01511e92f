/** One hand of play (BlackjackRound.java): the initial deal, player actions, the
    dealer's turn and the one-time settlement. */
module Rounds {
  import opened Results
  import opened Cards
  import opened Hands
  import opened Decks
  import opened Settlement

  datatype Round = Round(
    deck: Deck,
    dealer: Hand,       // the dealer's visible cards
    player: Hand,
    hidden: Option<Card>, // the dealer's face-down card
    revealed: bool,
    settled: bool)

  function HiddenBag(hidden: Option<Card>): multiset<Card>
  {
    match hidden
    case None => multiset{}
    case Some(c) => multiset{c}
  }

  /** All the cards the round holds, wherever they are. */
  function Bag(r: Round): multiset<Card>
  {
    multiset(r.deck.cards) + multiset(r.dealer.cards) + multiset(r.player.cards) + HiddenBag(r.hidden)
  }

  /** Every card of the round's deck is in exactly one place: the deck, a hand, or
      face down. */
  ghost predicate Conserved(r: Round)
  {
    FullDeck(Bag(r))
  }

  /** `start`: a fresh shuffled deck, then the initial deal. */
  function Start(picks: seq<int>): (r: Round)
    requires ValidPicks(picks, 52)
    ensures Conserved(r)
    ensures Size(r.dealer) == 1 && Size(r.player) == 2
    ensures r.hidden.Some? && Remaining(r.deck) == 48
    ensures !r.revealed && !r.settled
  {
    Deal(Shuffled(picks))
  }

  /** The initial deal from a full deck: the hidden card, the dealer's up-card and
      the player's two cards are taken from the top in that order. */
  function Deal(d: Deck): (r: Round)
    requires Remaining(d) == 52
    ensures FullDeck(multiset(d.cards)) ==> Conserved(r)
    ensures Size(r.dealer) == 1 && Size(r.player) == 2
    ensures r.hidden.Some? && Remaining(r.deck) == 48
    ensures !r.revealed && !r.settled
  {
    var c := d.cards;
    DealConserves(c);
    Round(Deck(c[..48]), Hand([c[50]]), Hand([c[49], c[48]]), Some(c[51]), false, false)
  }

  lemma DealConserves(d: seq<Card>)
    requires |d| == 52
    ensures multiset(d[..48]) + multiset([d[50]]) + multiset([d[49], d[48]]) + multiset{d[51]} == multiset(d)
  {
    assert d == d[..48] + [d[48]] + [d[49]] + [d[50]] + [d[51]];
    assert [d[49], d[48]] == [d[49]] + [d[48]];
  }

  /** The initial deal is four successive draws: hidden card, up-card, then the
      player's first and second card. */
  lemma DealDrawsFromTop(d: Deck)
    requires Remaining(d) == 52
    ensures var h := Draw(d).value;
      var up := Draw(h.rest).value;
      var p1 := Draw(up.rest).value;
      var p2 := Draw(p1.rest).value;
      var r := Deal(d);
      && r.hidden == Some(h.card)
      && r.dealer == Add(Clear(r.dealer), up.card)
      && r.player == Add(Add(Clear(r.player), p1.card), p2.card)
      && r.deck == p2.rest
  {
    var c := d.cards;
    assert c[..51][..50] == c[..50];
    assert c[..50][..49] == c[..49];
    assert c[..49][..48] == c[..48];
  }

  function PlayerTotal(r: Round): int
  {
    Total(r.player.cards)
  }

  /** The dealer's total without the face-down card. */
  function DealerVisibleTotal(r: Round): int
  {
    Total(r.dealer.cards)
  }

  /** The dealer's total with the face-down card, when there is one. */
  function DealerTotal(r: Round): int
  {
    TotalWith(r.dealer.cards, [r.hidden])
  }

  /** `dealerVisibleTotal` leaves the hidden card out and `dealerTotal` counts it. */
  lemma DealerTotals(r: Round)
    ensures DealerVisibleTotal(r) == Total(r.dealer.cards)
    ensures r.hidden.Some? ==> DealerTotal(r) == Total(r.dealer.cards + [r.hidden.value])
    ensures r.hidden.None? ==> DealerTotal(r) == DealerVisibleTotal(r)
  {
    TotalWithOne(r.dealer.cards, r.hidden);
  }

  predicate IsPlayerNatural(r: Round)
  {
    Size(r.player) == 2 && PlayerTotal(r) == 21
  }

  /** A dealer natural is only recognised in the initial configuration: one visible
      card plus the face-down card. */
  predicate IsDealerNatural(r: Round)
  {
    r.hidden.Some? && Size(r.dealer) == 1 && DealerTotal(r) == 21
  }

  /** The player natural: exactly an ace and a ten-valued card. */
  lemma PlayerNaturalIsAceAndTen(r: Round)
    requires Size(r.player) == 2
    ensures IsPlayerNatural(r) <==> Points(r.player.cards[0]) + Points(r.player.cards[1]) == 21
  {
    var cs := r.player.cards;
    assert cs == [cs[0], cs[1]];
    TotalOfPair(cs[0], cs[1]);
  }

  /** The dealer natural in terms of the two initial cards. */
  lemma DealerNaturalIsUpCardPlusHidden(r: Round)
    requires r.hidden.Some? && Size(r.dealer) == 1
    ensures IsDealerNatural(r) <==> Points(r.dealer.cards[0]) + Points(r.hidden.value) == 21
  {
    assert r.dealer.cards == [r.dealer.cards[0]];
    TotalWithPair(r.dealer.cards[0], r.hidden.value);
  }

  lemma TotalWithPair(up: Card, down: Card)
    ensures TotalWith([up], [Some(down)]) == 21 <==> Points(up) + Points(down) == 21
  {
    TotalWithOne([up], Some(down));
    assert [up] + [down] == [up, down];
    TotalOfPair(up, down);
  }

  /** `ensureOngoing` and `playerHit`: a settled round refuses the hit; otherwise the
      drawn card goes to the end of the player's hand. */
  function PlayerHit(r: Round): (res: Result<(Card, Round), GameError>)
    ensures r.settled ==> res == Err(RoundAlreadySettled)
    ensures !r.settled && Remaining(r.deck) == 0 ==> res == Err(EmptyDeck)
    ensures res.Ok? <==> !r.settled && Remaining(r.deck) > 0
    ensures res.Ok? ==> var (c, r') := res.value;
      && r'.player == Add(r.player, c)
      && c == r.deck.cards[|r.deck.cards| - 1]
      && r'.deck.cards == r.deck.cards[..|r.deck.cards| - 1]
      && r'.dealer == r.dealer && r'.hidden == r.hidden
      && r'.revealed == r.revealed && r'.settled == r.settled
    ensures res.Ok? ==> Bag(res.value.1) == Bag(r)
  {
    if r.settled then Err(RoundAlreadySettled)
    else
      match Draw(r.deck)
      case Err(e) => Err(e)
      case Ok(Drawn(c, rest)) =>
        var r' := r.(deck := rest, player := Add(r.player, c));
        assert multiset(r'.player.cards) == multiset(r.player.cards) + multiset{c};
        Ok((c, r'))
  }

  /** The dealer keeps drawing while the total with the face-down card is below 17. */
  predicate DealerMustDraw(hand: seq<Card>, hidden: Option<Card>)
  {
    TotalWith(hand, [hidden]) < 17
  }

  /** The dealer's drawing loop: draw from the top of `deck` while the total with the
      face-down card is below 17. It stops at the first total of 17 or more, or with
      the deck used up (`exhausted`), where the source's `draw` would throw. */
  method DrawDealer(dealer: seq<Card>, hidden: Option<Card>, deck: seq<Card>)
    returns (hand: seq<Card>, rest: seq<Card>, exhausted: bool)
    ensures |dealer| <= |hand| <= |dealer| + |deck|
    ensures hand == dealer + TopCards(deck, |hand| - |dealer|)
    ensures rest == deck[..|deck| - (|hand| - |dealer|)]
    ensures exhausted <==> DealerMustDraw(hand, hidden)
    ensures exhausted ==> rest == []
    ensures DrewOnlyBelowSeventeen(dealer, hand, hidden)
    ensures exhausted <==> DealerRunsOut(dealer, hidden, deck)
  {
    hand := dealer;
    var left := |deck|;  // the size of what is left of the deck
    while DealerMustDraw(hand, hidden) && left > 0
      invariant 0 <= left <= |deck|
      invariant hand == dealer + TopCards(deck, |deck| - left)
      invariant DrewOnlyBelowSeventeen(dealer, hand, hidden)
      decreases left
    {
      DrawStep(dealer, hidden, deck, hand, |deck| - left);
      hand := hand + [deck[left - 1]];
      left := left - 1;
    }
    rest := deck[..left];
    exhausted := DealerMustDraw(hand, hidden);
    DealerRunsOutIff(dealer, hidden, deck, hand);
  }

  /** One turn of the drawing loop keeps its invariant. */
  lemma DrawStep(dealer: seq<Card>, hidden: Option<Card>, deck: seq<Card>, hand: seq<Card>, n: nat)
    requires n < |deck| && hand == dealer + TopCards(deck, n)
    requires DrewOnlyBelowSeventeen(dealer, hand, hidden) && DealerMustDraw(hand, hidden)
    ensures hand + [deck[|deck| - n - 1]] == dealer + TopCards(deck, n + 1)
    ensures DrewOnlyBelowSeventeen(dealer, hand + [deck[|deck| - n - 1]], hidden)
  {
    DrewOnlyExtends(dealer, hand, deck[|deck| - n - 1], hidden);
  }

  /** Every card the dealer added was drawn while the total was still below 17. */
  ghost predicate DrewOnlyBelowSeventeen(dealer: seq<Card>, hand: seq<Card>, hidden: Option<Card>)
    requires |dealer| <= |hand|
  {
    forall k :: |dealer| <= k < |hand| ==> DealerMustDraw(hand[..k], hidden)
  }

  /** Drawing one more card while the total is below 17 keeps the drawing rule. */
  lemma DrewOnlyExtends(dealer: seq<Card>, hand: seq<Card>, c: Card, hidden: Option<Card>)
    requires |dealer| <= |hand|
    requires DrewOnlyBelowSeventeen(dealer, hand, hidden) && DealerMustDraw(hand, hidden)
    ensures DrewOnlyBelowSeventeen(dealer, hand + [c], hidden)
  {
    PrefixesOfSnoc(hand, c);
  }

  lemma PrefixesOfSnoc(s: seq<Card>, c: Card)
    ensures forall k :: 0 <= k <= |s| ==> (s + [c])[..k] == s[..k]
  {
  }

  /** The deck runs out during the dealer's turn: even after drawing every card of the
      deck, each at a total below 17, the total is still below 17. */
  ghost predicate DealerRunsOut(dealer: seq<Card>, hidden: Option<Card>, deck: seq<Card>)
  {
    && DrewOnlyBelowSeventeen(dealer, dealer + TopCards(deck, |deck|), hidden)
    && DealerMustDraw(dealer + TopCards(deck, |deck|), hidden)
  }

  /** Where the drawing loop stops decides whether the deck runs out: it does exactly
      when the loop stopped with the whole deck drawn and the total still below 17. */
  lemma DealerRunsOutIff(dealer: seq<Card>, hidden: Option<Card>, deck: seq<Card>, hand: seq<Card>)
    requires |dealer| <= |hand| <= |dealer| + |deck|
    requires hand == dealer + TopCards(deck, |hand| - |dealer|)
    requires DrewOnlyBelowSeventeen(dealer, hand, hidden)
    requires |hand| < |dealer| + |deck| ==> !DealerMustDraw(hand, hidden)
    ensures DealerRunsOut(dealer, hidden, deck) <==> DealerMustDraw(hand, hidden)
  {
    if |hand| < |dealer| + |deck| {
      StopBlocksRunOut(dealer, hidden, deck, |hand| - |dealer|);
    }
  }

  /** A stop at 17 or more before the deck is used up rules out running out: drawing on
      would have needed a total below 17 at that point. */
  lemma StopBlocksRunOut(dealer: seq<Card>, hidden: Option<Card>, deck: seq<Card>, n: nat)
    requires n < |deck|
    requires !DealerMustDraw(dealer + TopCards(deck, n), hidden)
    ensures !DrewOnlyBelowSeventeen(dealer, dealer + TopCards(deck, |deck|), hidden)
  {
    var full := dealer + TopCards(deck, |deck|);
    TopCardsPrefix(deck, n, |deck|);
    PrefixOfAppend(dealer, TopCards(deck, |deck|), n);
    if DrewOnlyBelowSeventeen(dealer, full, hidden) {
      DrewAt(dealer, full, hidden, |dealer| + n);
      assert false;
    }
  }

  lemma PrefixOfAppend(a: seq<Card>, b: seq<Card>, n: nat)
    requires n <= |b|
    ensures (a + b)[..|a| + n] == a + b[..n]
  {
  }

  /** The drawing rule at one position of the hand. */
  lemma DrewAt(dealer: seq<Card>, hand: seq<Card>, hidden: Option<Card>, k: int)
    requires |dealer| <= k < |hand|
    requires DrewOnlyBelowSeventeen(dealer, hand, hidden)
    ensures DealerMustDraw(hand[..k], hidden)
  {
  }

  /** The dealer's turn took the top cards of the deck, in drawing order, onto the end
      of the dealer's hand, drawing only while the total was below 17 and ending at 17
      or more; the player's hand and the face-down card are untouched. */
  ghost predicate DealerDrewToSeventeen(r: Round, r': Round)
  {
    && |r.dealer.cards| <= |r'.dealer.cards| <= |r.dealer.cards| + |r.deck.cards|
    && r'.dealer.cards == r.dealer.cards + TopCards(r.deck.cards, |r'.dealer.cards| - |r.dealer.cards|)
    && r'.deck.cards == r.deck.cards[..|r.deck.cards| - (|r'.dealer.cards| - |r.dealer.cards|)]
    && DrewOnlyBelowSeventeen(r.dealer.cards, r'.dealer.cards, r.hidden)
    && !DealerMustDraw(r'.dealer.cards, r'.hidden)
    && r'.player == r.player && r'.hidden == r.hidden
  }

  /** `playDealerTurn`: reveal the hidden card, then draw to 17. */
  method PlayDealerTurn(r: Round) returns (res: Result<Round, GameError>)
    ensures res.Err? ==> res.error == EmptyDeck
    ensures res.Err? <==> DealerRunsOut(r.dealer.cards, r.hidden, r.deck.cards)
    ensures res.Ok? ==> res.value.revealed && res.value.settled == r.settled
    ensures res.Ok? ==> DealerDrewToSeventeen(r, res.value)
    ensures res.Ok? ==> Bag(res.value) == Bag(r)
  {
    var hand, rest, exhausted := DrawDealer(r.dealer.cards, r.hidden, r.deck.cards);
    if exhausted {
      res := Err(EmptyDeck);
    } else {
      var r' := r.(revealed := true, dealer := Hand(hand), deck := Deck(rest));
      DealerTurnOk(r, r', hand, rest);
      DealerTurnKeepsCards(r, r', hand, rest);
      res := Ok(r');
    }
  }

  /** The round a completed draw loop leaves has drawn to 17 and kept every card. */
  lemma DealerTurnOk(r: Round, r': Round, hand: seq<Card>, rest: seq<Card>)
    requires |r.dealer.cards| <= |hand| <= |r.dealer.cards| + |r.deck.cards|
    requires hand == r.dealer.cards + TopCards(r.deck.cards, |hand| - |r.dealer.cards|)
    requires rest == r.deck.cards[..|r.deck.cards| - (|hand| - |r.dealer.cards|)]
    requires DrewOnlyBelowSeventeen(r.dealer.cards, hand, r.hidden)
    requires !DealerMustDraw(hand, r.hidden)
    requires r' == r.(revealed := true, dealer := Hand(hand), deck := Deck(rest))
    ensures DealerDrewToSeventeen(r, r')
  {
    DealerTurnResult(r, r');
  }

  /** ... and the cards it moved from the deck to the dealer are all still there. */
  lemma DealerTurnKeepsCards(r: Round, r': Round, hand: seq<Card>, rest: seq<Card>)
    requires |r.dealer.cards| <= |hand| <= |r.dealer.cards| + |r.deck.cards|
    requires hand == r.dealer.cards + TopCards(r.deck.cards, |hand| - |r.dealer.cards|)
    requires rest == r.deck.cards[..|r.deck.cards| - (|hand| - |r.dealer.cards|)]
    requires r' == r.(revealed := true, dealer := Hand(hand), deck := Deck(rest))
    ensures Bag(r') == Bag(r)
  {
    DealerDrawConserves(r, r', |hand| - |r.dealer.cards|);
  }

  /** What a completed draw loop leaves: the round with the dealer's new hand and the
      rest of the deck has drawn to 17. */
  lemma DealerTurnResult(r: Round, r': Round)
    requires |r.dealer.cards| <= |r'.dealer.cards| <= |r.dealer.cards| + |r.deck.cards|
    requires r'.dealer.cards == r.dealer.cards + TopCards(r.deck.cards, |r'.dealer.cards| - |r.dealer.cards|)
    requires r'.deck.cards == r.deck.cards[..|r.deck.cards| - (|r'.dealer.cards| - |r.dealer.cards|)]
    requires !DealerMustDraw(r'.dealer.cards, r.hidden)
    requires DrewOnlyBelowSeventeen(r.dealer.cards, r'.dealer.cards, r.hidden)
    requires r'.player == r.player && r'.hidden == r.hidden
    ensures DealerDrewToSeventeen(r, r')
  {
  }

  /** Moving the top `n` cards of the deck to the end of the dealer's hand keeps every
      card in exactly one place. */
  lemma DealerDrawConserves(r: Round, r': Round, n: nat)
    requires n <= Remaining(r.deck)
    requires r'.dealer.cards == r.dealer.cards + TopCards(r.deck.cards, n)
    requires r'.deck.cards == r.deck.cards[..Remaining(r.deck) - n]
    requires r'.player == r.player && r'.hidden == r.hidden
    ensures Bag(r') == Bag(r)
  {
    TopCardsConserve(r.deck.cards, n);
    assert multiset(r'.dealer.cards) == multiset(r.dealer.cards) + multiset(TopCards(r.deck.cards, n));
  }

  /** `playerStand`: refused once settled; otherwise the dealer's turn. */
  method PlayerStand(r: Round) returns (res: Result<Round, GameError>)
    ensures r.settled ==> res == Err(RoundAlreadySettled)
    ensures res.Err? && !r.settled ==> res.error == EmptyDeck
    ensures !r.settled ==> (res.Err? <==> DealerRunsOut(r.dealer.cards, r.hidden, r.deck.cards))
    ensures res.Ok? ==> res.value.revealed && !res.value.settled
    ensures res.Ok? ==> DealerDrewToSeventeen(r, res.value)
    ensures res.Ok? && Conserved(r) ==> Conserved(res.value)
  {
    if r.settled {
      res := Err(RoundAlreadySettled);
    } else {
      res := PlayDealerTurn(r);
    }
  }

  datatype Settled = Settled(outcome: RoundOutcome, round: Round)

  /** `settle(bet)`: refused once settled; otherwise reveal, apply the table to the
      player's total, the dealer's total with the hidden card and the two natural
      checks, and mark the round settled. */
  function Settle(r: Round, bet: int): (res: Result<Settled, GameError>)
    ensures res.Err? <==> r.settled
    ensures res.Err? ==> res.error == RoundAlreadySettled
    ensures res.Ok? ==> var r' := res.value.round;
      && r'.revealed && r'.settled
      && r'.deck == r.deck && r'.dealer == r.dealer && r'.player == r.player && r'.hidden == r.hidden
    ensures res.Ok? && PlayerTotal(r) > 21 ==> res.value.outcome == RoundOutcome(Lose, 0)
  {
    if r.settled then Err(RoundAlreadySettled)
    else
      var outcome := Decide(PlayerTotal(r), DealerTotal(r), IsPlayerNatural(r), IsDealerNatural(r), bet);
      Ok(Settled(outcome, r.(revealed := true, settled := true)))
  }

  /** A round settles once: after a successful `settle`, another `settle` and a
      `playerHit` are both refused. */
  lemma SettleOnlyOnce(r: Round, bet: int, bet2: int)
    requires Settle(r, bet).Ok?
    ensures Settle(Settle(r, bet).value.round, bet2) == Err(RoundAlreadySettled)
    ensures PlayerHit(Settle(r, bet).value.round) == Err(RoundAlreadySettled)
  {
  }

  /** The settled outcome is the rank comparison of the two hands, paid by verdict. */
  lemma SettleRanksHands(r: Round, bet: int)
    requires Settle(r, bet).Ok?
    ensures var o := Settle(r, bet).value.outcome;
      && o.result == Compare(PlayerStrength(PlayerTotal(r), IsPlayerNatural(r)),
                             DealerStrength(DealerTotal(r), IsDealerNatural(r)))
      && o.payout == PayoutFor(o.result, IsPlayerNatural(r), bet)
  {
    TotalAtLeastSize(r.player.cards);
    TotalWithOne(r.dealer.cards, r.hidden);
    if r.hidden.Some? {
      TotalAtLeastSize(r.dealer.cards + [r.hidden.value]);
    } else {
      TotalAtLeastSize(r.dealer.cards);
    }
    DecideIsRankComparison(PlayerTotal(r), DealerTotal(r), IsPlayerNatural(r), IsDealerNatural(r), bet);
  }

  /** Settling keeps every card where it was. */
  lemma SettleConserves(r: Round, bet: int)
    requires Conserved(r) && Settle(r, bet).Ok?
    ensures Conserved(Settle(r, bet).value.round)
  {
  }
}
