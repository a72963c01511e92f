/** The settlement rule of a round (`BlackjackRound.settle` and the identical decision
    in `AppFX.settleAndFinish`) and the outcome record (RoundOutcome.java). */
module Settlement {

  datatype Verdict = Win | Lose | Push

  /** The result tag and the amount credited back to the player. The display message
      of the source record is not modelled. */
  datatype RoundOutcome = RoundOutcome(result: Verdict, payout: int)

  /** `Math.round(bet * 2.5)` in integers: the nearest integer to 2.5 times the bet,
      halves rounded up, i.e. floor(2.5 * bet + 1/2). */
  function NaturalPayout(bet: int): (p: int)
    ensures 2 * p <= 5 * bet + 1 < 2 * p + 2
  {
    (5 * bet + 1) / 2
  }

  /** The eight-branch table; the first matching branch wins. */
  function Decide(player: int, dealer: int, playerNatural: bool, dealerNatural: bool, bet: int): (o: RoundOutcome)
    ensures bet >= 0 ==> o.payout >= 0
    ensures bet > 0 ==> (o.result == Win <==> o.payout > bet)
    ensures bet > 0 ==> (o.result == Push <==> o.payout == bet)
    ensures bet > 0 ==> (o.result == Lose <==> o.payout == 0)
    ensures player > 21 ==> o == RoundOutcome(Lose, 0)
  {
    if player > 21 then RoundOutcome(Lose, 0)
    else if playerNatural && dealerNatural then RoundOutcome(Push, bet)
    else if playerNatural then RoundOutcome(Win, NaturalPayout(bet))
    else if dealerNatural then RoundOutcome(Lose, 0)
    else if dealer > 21 then RoundOutcome(Win, bet * 2)
    else if player == dealer then RoundOutcome(Push, bet)
    else if player > dealer then RoundOutcome(Win, bet * 2)
    else RoundOutcome(Lose, 0)
  }

  // ---------------------------------------------------------------------------
  // An independent reading of the table: rank each side's hand, compare the ranks.

  /** A busted player ranks below everything, a natural above everything, otherwise
      the total counts. */
  function PlayerStrength(total: int, natural: bool): int
  {
    if total > 21 then -2 else if natural then 22 else total
  }

  /** A dealer natural ranks above everything, a busted dealer below every standing
      player hand but above a busted player. */
  function DealerStrength(total: int, natural: bool): int
  {
    if natural then 22 else if total > 21 then -1 else total
  }

  function Compare(mine: int, theirs: int): Verdict
  {
    if mine > theirs then Win else if mine == theirs then Push else Lose
  }

  /** Losing pays nothing, a tie returns the bet, a win pays 3:2 with a natural and
      2:1 otherwise. */
  function PayoutFor(v: Verdict, playerNatural: bool, bet: int): int
  {
    match v
    case Lose => 0
    case Push => bet
    case Win => if playerNatural then NaturalPayout(bet) else 2 * bet
  }

  /** For hands that can occur (a natural totals 21, totals are not negative), the
      table is exactly "compare the ranks, pay by verdict". */
  lemma DecideIsRankComparison(player: int, dealer: int, playerNatural: bool, dealerNatural: bool, bet: int)
    requires player >= 0 && dealer >= 0
    requires playerNatural ==> player == 21
    requires dealerNatural ==> dealer == 21
    ensures var o := Decide(player, dealer, playerNatural, dealerNatural, bet);
      && o.result == Compare(PlayerStrength(player, playerNatural), DealerStrength(dealer, dealerNatural))
      && o.payout == PayoutFor(o.result, playerNatural, bet)
  {
  }

  /** A player bust loses even when the dealer busts as well. */
  lemma BustBeatsDealerBust(player: int, dealer: int, bet: int)
    requires player > 21 && dealer > 21
    ensures forall pn: bool, dn: bool :: Decide(player, dealer, pn, dn, bet) == RoundOutcome(Lose, 0)
  {
  }

  /** Without naturals and busts, the verdict is the comparison of the totals,
      in both directions. */
  lemma PlainHandsCompareTotals(player: int, dealer: int, bet: int)
    requires player <= 21 && dealer <= 21
    ensures Decide(player, dealer, false, false, bet).result == Win <==> player > dealer
    ensures Decide(player, dealer, false, false, bet).result == Push <==> player == dealer
    ensures Decide(player, dealer, false, false, bet).result == Lose <==> player < dealer
  {
  }

  /** A higher standing player total never does worse, with everything else fixed. */
  lemma DecideMonotoneInPlayerTotal(p1: int, p2: int, dealer: int, pn: bool, dn: bool, bet: int)
    requires 0 <= p1 <= p2 <= 21 && dealer >= 0
    requires pn ==> p1 == 21
    requires dn ==> dealer == 21
    ensures VerdictRank(Decide(p1, dealer, pn, dn, bet).result) <= VerdictRank(Decide(p2, dealer, pn, dn, bet).result)
  {
    DecideIsRankComparison(p1, dealer, pn, dn, bet);
    DecideIsRankComparison(p2, dealer, pn, dn, bet);
  }

  function VerdictRank(v: Verdict): int
  {
    match v
    case Lose => 0
    case Push => 1
    case Win => 2
  }
}
