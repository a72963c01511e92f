/**
  The game rules as the JavaFX window re-implements them on its own fields (AppFX.java):
  the deck build, swap shuffle and initial deal of `startRound`, the two totalling
  helpers, the dealer's loop, the decision part of `settleAndFinish`, and the bet
  arithmetic of the bet editor and of the affordability check. Each is related to the
  game-package definition it duplicates.
*/
module AppFx {
  import opened Results
  import opened Cards
  import opened Hands
  import opened Decks
  import opened Settlement
  import Rounds
  import Ledger

  /** Step and minimum of the bet editor. */
  const BetStep: int := 250
  const BetMin: int := 250
  /** Step used when the affordability check lowers the bet. */
  const AffordStep: int := 50
  /** `Integer.MAX_VALUE`: `Integer.parseInt` rejects anything larger. */
  const MaxInt: int := 0x7fff_ffff

  /** The game fields of the window: the remaining deck (top = last), the dealer's
      hidden card, the dealer's visible cards, the player's cards, `roundSettled` and
      `currentBet`. */
  datatype Table = Table(deck: seq<Card>, hidden: Option<Card>, dealer: seq<Card>,
                         player: seq<Card>, settled: bool, bet: int)

  /** The same cards read as a `BlackjackRound` (the window keeps no reveal flag). */
  function AsRound(t: Table): Rounds.Round
  {
    Rounds.Round(Deck(t.deck), Hand(t.dealer), Hand(t.player), t.hidden, false, t.settled)
  }

  // ---------------------------------------------------------------- totals

  lemma SumBySnoc(s: seq<Card>, i: nat, m: Measure)
    requires i < |s|
    ensures SumBy(s[..i + 1], m) == SumBy(s[..i], m) + Weight(m, s[i])
  {
    assert s[..i + 1][..i] == s[..i];
  }

  /** The ace-reduction loop: lowers `sum` by 10 while it is over 21 and `aces` remain. */
  method ReduceLoop(sum0: int, aces0: int) returns (sum: int)
    ensures sum == Reduce(sum0, aces0)
  {
    sum := sum0;
    var aces := aces0;
    while sum > 21 && aces > 0
      invariant Reduce(sum, aces) == Reduce(sum0, aces0)
      decreases aces
    {
      sum := sum - 10;
      aces := aces - 1;
    }
  }

  /** The counting pass shared by `computeTotal` and `computeDealerTotal`: points summed
      with every ace at 11, and the number of aces. */
  method CountPoints(cards: seq<Card>) returns (sum: int, aces: int)
    ensures sum == RawSum(cards) && aces == AceCount(cards)
  {
    sum, aces := 0, 0;
    var i := 0;
    while i < |cards|
      invariant 0 <= i <= |cards|
      invariant sum == RawSum(cards[..i]) && aces == AceCount(cards[..i])
    {
      SumBySnoc(cards, i, ByPoints);
      SumBySnoc(cards, i, ByAces);
      sum := sum + Points(cards[i]);
      if IsAce(cards[i]) {
        aces := aces + 1;
      }
      i := i + 1;
    }
    assert cards[..i] == cards;
  }

  /** `computeTotal`: one pass summing points and counting aces, then the reduction
      loop; it computes exactly `Hand.total`. */
  method ComputeTotal(hand: seq<Card>) returns (total: int)
    ensures total == Total(hand)
  {
    var sum, aces := CountPoints(hand);
    total := ReduceLoop(sum, aces);
  }

  /** `computeDealerTotal(reveal)` (the flag is `showHidden` here, `reveal` being a
      keyword): the dealer's visible cards, plus the hidden card when the flag is set and
      there is one; `Hand.total(hidden)` when shown, `Hand.total()` otherwise. */
  method ComputeDealerTotal(dealer: seq<Card>, hidden: Option<Card>, showHidden: bool) returns (total: int)
    ensures showHidden ==> total == TotalWith(dealer, [hidden])
    ensures !showHidden ==> total == Total(dealer)
  {
    var sum, aces := CountPoints(dealer);
    if showHidden && hidden.Some? {
      var c := hidden.value;
      sum, aces := sum + Points(c), aces + AceWeight(c);
      TotalWithShown(dealer, c, sum, aces);
      total := ReduceLoop(sum, aces);
    } else {
      if showHidden {
        TotalWithOne(dealer, hidden);
      }
      total := ReduceLoop(sum, aces);
    }
  }

  // ---------------------------------------------------------------- start of a round

  /** The shuffle loop of `startRound`: for every position `i` in order, swap it with an
      arbitrary position `picks[i]`. Whatever the choices, the cards are only permuted. */
  method SwapShuffle(cards: seq<Card>, picks: seq<int>) returns (shuffled: seq<Card>)
    requires |picks| == |cards|
    requires forall k :: 0 <= k < |picks| ==> 0 <= picks[k] < |cards|
    ensures |shuffled| == |cards|
    ensures multiset(shuffled) == multiset(cards)
  {
    var a := new Card[|cards|](k requires 0 <= k < |cards| => cards[k]);
    assert a[..] == cards;
    var i := 0;
    while i < a.Length
      invariant 0 <= i <= a.Length
      invariant multiset(a[..]) == multiset(cards)
    {
      var j := picks[i];
      var before := a[..];
      var tmp := a[i];
      a[i] := a[j];
      a[j] := tmp;
      assert a[..] == Swap(before, i, j);
      i := i + 1;
    }
    shuffled := a[..];
  }

  /** `startRound`: build the 52 cards in suit-major order, shuffle them with the swap
      loop, then deal the hidden card, the dealer's up-card and two player cards from the
      top. The deal is exactly `BlackjackRound.start`'s deal of the same shuffled deck. */
  method StartRound(t: Table, picks: seq<int>) returns (shuffled: seq<Card>, t': Table)
    requires |picks| == 52
    requires forall k :: 0 <= k < |picks| ==> 0 <= picks[k] < 52
    ensures |shuffled| == 52 && FullDeck(multiset(shuffled))
    ensures AsRound(t') == Rounds.Deal(Deck(shuffled))
    ensures Rounds.Conserved(AsRound(t'))
    ensures |t'.deck| == 48 && |t'.dealer| == 1 && |t'.player| == 2 && t'.hidden.Some?
    ensures !t'.settled && t'.bet == t.bet
  {
    var built := Canonical();
    shuffled := SwapShuffle(built, picks);
    var deck := shuffled;
    var hidden := deck[|deck| - 1];
    deck := deck[..|deck| - 1];
    assert deck == shuffled[..51];
    var up := deck[|deck| - 1];
    deck := deck[..|deck| - 1];
    assert deck == shuffled[..50];
    var p1 := deck[|deck| - 1];
    deck := deck[..|deck| - 1];
    assert deck == shuffled[..49];
    var p2 := deck[|deck| - 1];
    deck := deck[..|deck| - 1];
    assert deck == shuffled[..48];
    t' := Table(deck, Some(hidden), [up], [p1, p2], false, t.bet);
  }

  // ---------------------------------------------------------------- dealer

  /** `dealerPlay`: reveal and draw from the top while `computeDealerTotal(true)` is
      below 17. The source does not check for an empty deck (the removal would throw);
      here that case is `EmptyDeck`. */
  method DealerPlay(t: Table) returns (res: Result<Table, GameError>)
    ensures res.Err? ==> res.error == EmptyDeck
    ensures res.Err? <==> Rounds.DealerRunsOut(t.dealer, t.hidden, t.deck)
    ensures res.Ok? ==> Rounds.DealerDrewToSeventeen(AsRound(t), AsRound(res.value))
    ensures res.Ok? ==> res.value.settled == t.settled && res.value.bet == t.bet
  {
    var hand, rest, exhausted := Rounds.DrawDealer(t.dealer, t.hidden, t.deck);
    if exhausted {
      res := Err(EmptyDeck);
    } else {
      var t' := t.(dealer := hand, deck := rest);
      WindowDealerTurn(t, t', hand, rest);
      res := Ok(t');
    }
  }

  /** The table a completed draw loop leaves has drawn to 17 as the round's dealer does. */
  lemma WindowDealerTurn(t: Table, t': Table, hand: seq<Card>, rest: seq<Card>)
    requires |t.dealer| <= |hand| <= |t.dealer| + |t.deck|
    requires hand == t.dealer + TopCards(t.deck, |hand| - |t.dealer|)
    requires rest == t.deck[..|t.deck| - (|hand| - |t.dealer|)]
    requires Rounds.DrewOnlyBelowSeventeen(t.dealer, hand, t.hidden)
    requires !Rounds.DealerMustDraw(hand, t.hidden)
    requires t' == t.(dealer := hand, deck := rest)
    ensures Rounds.DealerDrewToSeventeen(AsRound(t), AsRound(t'))
  {
    Rounds.DealerTurnResult(AsRound(t), AsRound(t'));
  }

  // ---------------------------------------------------------------- settlement

  /** The window after `settleAndFinish`, and the outcome it decided, if any. */
  datatype Finished = Finished(table: Table, outcome: Option<RoundOutcome>)

  /** The decision part of `settleAndFinish`: nothing at all once the round is settled;
      otherwise the eight-branch table on the player's total, the revealed dealer total
      and the two natural checks, and the round becomes settled. */
  function SettleAndFinish(t: Table): (f: Finished)
    ensures t.settled ==> f == Finished(t, None)
    ensures !t.settled ==> f.table == t.(settled := true) && f.outcome.Some?
    ensures !t.settled && Total(t.player) > 21 ==> f.outcome == Some(RoundOutcome(Lose, 0))
    ensures !t.settled && t.bet > 0 ==> (f.outcome.value.result == Win <==> f.outcome.value.payout > t.bet)
  {
    if t.settled then Finished(t, None)
    else
      var p := Total(t.player);
      var d := TotalWith(t.dealer, [t.hidden]);
      var playerNatural := p == 21 && |t.player| == 2;
      var dealerNatural := d == 21 && t.hidden.Some? && |t.dealer| == 1;
      Finished(t.(settled := true), Some(Decide(p, d, playerNatural, dealerNatural, t.bet)))
  }

  /** The window's settlement decides exactly what `BlackjackRound.settle` decides for the
      same cards and bet; they differ only on a repeated call, which the window ignores
      silently and the round refuses. */
  lemma SettleAgreesWithRound(t: Table)
    ensures var r := Rounds.Settle(AsRound(t), t.bet);
      && (!t.settled ==> r.Ok? && SettleAndFinish(t).outcome == Some(r.value.outcome)
                         && AsRound(SettleAndFinish(t).table) == r.value.round.(revealed := false))
      && (t.settled ==> r == Err(RoundAlreadySettled) && SettleAndFinish(t) == Finished(t, None))
  {
  }

  /** A second `settleAndFinish` changes nothing and reports nothing. */
  lemma SettleTwiceIsSilent(t: Table)
    ensures var t1 := SettleAndFinish(t).table;
      t1.settled && SettleAndFinish(t1) == Finished(t1, None)
  {
  }

  // ---------------------------------------------------------------- bets

  predicate IsBetStep(m: int)
  {
    m % BetStep == 0
  }

  /** `replaceAll("\\D", "")`: the decimal digits of the text, in order. */
  function Digits(s: string): (d: string)
    ensures AllDigits(d) && |d| <= |s|
    ensures forall i :: 0 <= i < |s| && IsDigit(s[i]) ==> s[i] in d
    ensures forall ch :: ch in d ==> ch in s
  {
    if |s| == 0 then []
    else if IsDigit(s[0]) then [s[0]] + Digits(s[1..])
    else Digits(s[1..])
  }

  /** The filter keeps a character exactly when it is a digit ... */
  lemma DigitsSingle(ch: char)
    ensures Digits([ch]) == if IsDigit(ch) then [ch] else []
  {
    assert [ch][1..] == [];
  }

  /** ... and works piecewise, so the digits keep their order and their repeats. */
  lemma {:induction false} DigitsAppend(a: string, b: string)
    ensures Digits(a + b) == Digits(a) + Digits(b)
    decreases |a|
  {
    if |a| == 0 {
      assert a + b == b;
    } else {
      assert (a + b)[0] == a[0];
      assert (a + b)[1..] == a[1..] + b;
      DigitsAppend(a[1..], b);
    }
  }

  /** The clamping of the bet editor: round the typed value down to a multiple of 250,
      raise it to 250, and lower it to the largest multiple of 250 within
      `max(250, balance)`. The result is the largest multiple of 250 not above
      `max(250, min(v, max(250, balance)))`. */
  function ClampBet(v: int, balance: int): (r: int)
    requires v >= 0
    ensures IsBetStep(r) && BetMin <= r <= (if balance > BetMin then balance else BetMin)
    ensures var cap := if balance > BetMin then balance else BetMin;
      var target := if v < BetMin then BetMin else if v < cap then v else cap;
      r <= target && forall m :: IsBetStep(m) && m <= target ==> m <= r
  {
    var cap := if balance > BetMin then balance else BetMin;
    FloorToStep(v);
    FloorToStep(cap);
    var stepped := (v / BetStep) * BetStep;
    var raised := if stepped < BetMin then BetMin else stepped;
    if raised > cap then (cap / BetStep) * BetStep else raised
  }

  /** Rounding down to a multiple of 250 gives the largest multiple not above `x`. */
  lemma FloorToStep(x: int)
    requires x >= 0
    ensures IsBetStep((x / BetStep) * BetStep)
    ensures x - BetStep < (x / BetStep) * BetStep <= x
    ensures forall m :: IsBetStep(m) && m <= x ==> m <= (x / BetStep) * BetStep
  {
    forall m | IsBetStep(m) && m <= x
      ensures m <= (x / BetStep) * BetStep
    {
      assert m == (m / BetStep) * BetStep;
    }
  }

  /** A bet the editor produced is left as it is when entered again. */
  lemma ClampBetIdempotent(v: int, balance: int)
    requires v >= 0
    ensures ClampBet(ClampBet(v, balance), balance) == ClampBet(v, balance)
  {
  }

  /** `applyBetEditor`: no digits, or a number `Integer.parseInt` rejects, leave the window
      unchanged; otherwise the clamped value becomes the bet and `roundSettled` is reset. */
  function ApplyBetEditor(t: Table, text: string, balance: int): (t': Table)
    ensures Digits(text) == [] ==> t' == t
    ensures Digits(text) != [] && DecimalValue(Digits(text)) > MaxInt ==> t' == t
    ensures t' != t ==>
      && t'.deck == t.deck && t'.hidden == t.hidden && t'.dealer == t.dealer
      && t'.player == t.player && !t'.settled
    ensures Digits(text) != [] && DecimalValue(Digits(text)) <= MaxInt ==>
      && t'.bet == ClampBet(DecimalValue(Digits(text)), balance)
      && IsBetStep(t'.bet) && BetMin <= t'.bet <= (if balance > BetMin then balance else BetMin)
      && t'.deck == t.deck && t'.hidden == t.hidden && t'.dealer == t.dealer
      && t'.player == t.player && !t'.settled
  {
    var raw := Digits(text);
    if |raw| == 0 then t
    else
      var v := DecimalValue(raw);
      if v > MaxInt then t
      else t.(bet := ClampBet(v, balance), settled := false)
  }

  /** `ensureBetAffordable`: refuse below the minimum balance of 250; otherwise lower a
      bet the balance cannot cover to the largest multiple of 50 within the balance.
      Returns whether play may go on and the (possibly adjusted) bet. */
  function EnsureBetAffordable(bet: int, balance: int): (res: (bool, int))
    ensures !res.0 <==> balance < BetMin
    ensures !res.0 ==> res.1 == bet
    ensures res.0 ==> res.1 <= balance
    ensures res.0 && bet <= balance ==> res.1 == bet
    ensures res.1 != bet ==> res.1 == (balance / AffordStep) * AffordStep
    ensures res.0 && bet > balance ==>
      && res.1 % AffordStep == 0 && BetMin <= res.1 && balance - AffordStep < res.1
  {
    if balance < BetMin then (false, bet)
    else if bet > balance then
      var adjusted := if (balance / AffordStep) * AffordStep > BetMin then (balance / AffordStep) * AffordStep else BetMin;
      (true, adjusted)
    else (true, bet)
  }

  /** A positive bet that passed the affordability check is accepted by `placeBet` for
      an existing account and session. */
  lemma AffordableBetIsAccepted(st: Ledger.Store, id: Ledger.AccountId, sid: Ledger.SessionId, bet: int)
    requires Ledger.HasAccount(st, id) && Ledger.HasSession(st, sid) && bet > 0
    requires EnsureBetAffordable(bet, Ledger.GetBalance(st, id)).0
    ensures Ledger.PlaceBet(st, id, sid, EnsureBetAffordable(bet, Ledger.GetBalance(st, id)).1).Ok?
  {
  }

  /** A bet fixed by the editor is accepted by `placeBet` whenever the balance reaches
      the minimum bet. */
  lemma EditedBetIsAccepted(st: Ledger.Store, id: Ledger.AccountId, sid: Ledger.SessionId, t: Table, text: string)
    requires Ledger.HasAccount(st, id) && Ledger.HasSession(st, sid)
    requires Ledger.GetBalance(st, id) >= BetMin
    requires Digits(text) != [] && DecimalValue(Digits(text)) <= MaxInt
    ensures Ledger.PlaceBet(st, id, sid, ApplyBetEditor(t, text, Ledger.GetBalance(st, id)).bet).Ok?
  {
  }
}
