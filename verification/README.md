# Blackjack with a wallet — a Dafny model of the game core and the ledger

The repository is a single-player blackjack game (JavaFX) whose player owns a wallet
of XPF kept in SQLite. This project models its sequential logic and proves what that
logic promises:

- **Cards, hands and the deck** (`game/Card.java`, `game/Hand.java`, `game/Deck.java`):
  card points, the textual form and image path of a card, the hand total with soft
  aces (`total(extras...)`), the 52-card deck built in canonical order, shuffled, and
  dealt from the end of the list.
- **The round** (`game/BlackjackRound.java`, `game/RoundOutcome.java`): the initial
  deal (hidden card, dealer up-card, two player cards), hit, stand, the dealer drawing
  below 17, the natural-blackjack checks, and the eight-branch settlement table that a
  `settled` flag makes happen only once.
- **The ledger** (`db/DatabaseService.java`): accounts, wallets, sessions and the
  append-only journal of transactions, with the two triggers (initial wallet of 10000
  on account creation; wallet balance set to a journal row's closing balance on
  insert) folded into the operations. The central invariant `Ledger.Valid` says every
  wallet holds the balance its journal ends with, which is the sum of the account's
  journal amounts, and every operation preserves it.
- **The window's copy of the rules** (`AppFX.java`): its own totalling helpers, swap
  shuffle and deal, dealer loop, the decision part of `settleAndFinish` (where a
  repeated settle is a silent no-op), the bet editor's rounding and clamping to
  multiples of 250, and the affordability check. Each is proved equal to, or
  consistent with, the game-package definition it duplicates.

Modules, one per file: `Results` (Option/Result), `Cards`, `Hands`, `Decks`,
`Settlement` (the settlement table shared by both copies of the rules), `Rounds`,
`Ledger` and `AppFx`.

Modelling choices:

- Randomness is a parameter. `Collections.shuffle` is Java's swap loop
  (for `i` from the size down to 2, swap `i-1` with `nextInt(i)`), driven by a `picks`
  sequence of in-range indices. The window's loop is the same, with `j` any index.
- `Math.round(bet * 2.5)` is the integer `(5 * bet + 1) / 2`, which equals it for
  every non-negative bet.
- Exceptions are `Err` values: `Deck vide` becomes `EmptyDeck`, `ensureOngoing` becomes
  `RoundAlreadySettled`, SQL failures become `DbError`. A failing SQL operation is
  all-or-nothing (the source rolls back), so an `Err` carries no new store.
- SQLite AUTOINCREMENT keys start at 1 and rows are never deleted, so the row at
  index `i` has key `i + 1`. Foreign keys are on, so a journal row or session that
  names a missing account or session is refused (`ForeignKeyViolation`).
- Dates and instants (`date('now')`, `CURRENT_TIMESTAMP`) are integer parameters.
- Java `int` is modelled as unbounded `int` (see Left out).

## Model

| member | source | states |
|---|---|---|
| Cards.Points | BlackJack/src/main/java/org/example/game/Card.java:22-27 | every card is worth 2 to 11 points, jack, queen and king are worth 10, and exactly the aces are worth 11 |
| Cards.NumberRankPoints | BlackJack/src/main/java/org/example/game/Card.java:22-27 | the number cards 2..10 are worth their face value, read as a decimal number from the label |
| Cards.NumberLabelValue | BlackJack/src/main/java/org/example/game/Card.java:26 | a number card's label is all digits and `parseInt` of it is the rank's position plus one |
| Cards.AceIffLabelA | BlackJack/src/main/java/org/example/game/Card.java:29-31 | `isAce` holds exactly for the rank labelled "A" |
| Cards.RankIndex | BlackJack/src/main/java/org/example/game/Deck.java:9 | every rank occurs in the 13-value table |
| Cards.SuitIndex | BlackJack/src/main/java/org/example/game/Deck.java:10 | every suit occurs in the 4-suit table |
| Cards.RanksDistinct | BlackJack/src/main/java/org/example/game/Deck.java:9 | the 13 values of the table are pairwise different |
| Cards.SuitsDistinct | BlackJack/src/main/java/org/example/game/Deck.java:10 | the 4 suits of the table are pairwise different |
| Cards.ImagePath | BlackJack/src/main/java/org/example/game/Card.java:33-35 | the image path is "/card/" then the card's text then ".png" |
| Cards.LabelRoundTrip | BlackJack/src/main/java/org/example/game/Deck.java:9 | a rank's label has one or two characters and parses back to that rank |
| Cards.TextRoundTrip | BlackJack/src/main/java/org/example/game/Card.java:38-40 | the text value + "-" + suit parses back to the same card |
| Cards.TextInjective | BlackJack/src/main/java/org/example/game/Card.java:33-40 | two cards have the same text, and the same image path, exactly when they are the same card |
| Hands.Clear | BlackJack/src/main/java/org/example/game/Hand.java:10-12 | after clearing, the size is 0 and the total is 0 |
| Hands.Add | BlackJack/src/main/java/org/example/game/Hand.java:14-16 | adding grows the hand by one, puts the card last and keeps the earlier cards in order |
| Hands.SumByAppend | BlackJack/src/main/java/org/example/game/Hand.java:29-34 | the points sum and the ace count of a concatenation are the sums of the parts |
| Hands.SumByPermutation | BlackJack/src/main/java/org/example/game/Hand.java:29-34 | the points sum and the ace count depend only on which cards are held, not their order |
| Hands.HardSumAtLeastCount | BlackJack/src/main/java/org/example/game/Hand.java:29-34 | with every ace counted as 1 the sum is still at least the number of cards |
| Hands.ReduceIsLeastSoftening | BlackJack/src/main/java/org/example/game/Hand.java:44-47 | the reduction loop subtracts 10 a number k of times with k at most the aces, k the least count that brings the sum to 21 or below, or all aces if none does |
| Hands.TotalIsLeastSoftening | BlackJack/src/main/java/org/example/game/Hand.java:26-49 | the hand total is the raw points sum minus 10k for the least such k (all the aces when even that stays above 21) |
| Hands.TotalOfSmallSum | BlackJack/src/main/java/org/example/game/Hand.java:26-49 | when the raw sum is at most 21 the total is the raw sum |
| Hands.BustTotalIsHard | BlackJack/src/main/java/org/example/game/Hand.java:44-47 | a total above 21 counts every ace as 1 |
| Hands.TotalAtLeastSize | BlackJack/src/main/java/org/example/game/Hand.java:26-49 | a total is never below the number of cards |
| Hands.TotalPermutation | BlackJack/src/main/java/org/example/game/Hand.java:29-43 | two hands holding the same cards in any order have the same total |
| Hands.TotalOfPair | BlackJack/src/main/java/org/example/game/Hand.java:26-49 | a two-card hand totals 21 exactly when its points add up to 21 (an ace and a ten-valued card) |
| Hands.TotalWithOne | BlackJack/src/main/java/org/example/game/Hand.java:35-43 | a total with one extra card is the total of the hand with that card appended, and a null extra is ignored |
| Hands.PresentOne | BlackJack/src/main/java/org/example/game/Hand.java:36-38 | a null extra contributes no card, a present one contributes itself |
| Decks.Canonical | BlackJack/src/main/java/org/example/game/Deck.java:17-23 | the build holds 52 cards, each (value, suit) pair exactly once |
| Decks.CanonicalDistinct | BlackJack/src/main/java/org/example/game/Deck.java:19-23 | the suit-major, value-minor build lists no card twice |
| Decks.DistinctCount | BlackJack/src/main/java/org/example/game/Deck.java:17-23 | in a list without repeats every card occurs at most once, exactly when it is listed |
| Decks.Swap | BlackJack/src/main/java/org/example/game/Deck.java:24 | one swap exchanges two positions, keeps every other position and the multiset of cards |
| Decks.ShuffleTop | BlackJack/src/main/java/org/example/game/Deck.java:24 | the shuffle's swap loop over the first n positions is a permutation that leaves later positions alone |
| Decks.Shuffled | BlackJack/src/main/java/org/example/game/Deck.java:17-26 | a shuffled deck has 52 cards, is a permutation of the canonical build, and so holds each card exactly once |
| Decks.Draw | BlackJack/src/main/java/org/example/game/Deck.java:28-37 | drawing fails exactly on an empty deck; otherwise it returns the last card, the rest is the old prefix in order, one card fewer remains, and no card is lost |
| Decks.TopCardsConserve | BlackJack/src/main/java/org/example/game/Deck.java:28-33 | after any number of draws, the drawn cards plus the remaining ones are exactly the original deck |
| Decks.TopCardsPrefix | BlackJack/src/main/java/org/example/game/Deck.java:28-33 | the first n of m successive draws are exactly n successive draws |
| Decks.DrawExtendsTopCards | BlackJack/src/main/java/org/example/game/Deck.java:28-33 | the next draw returns the next card from the top and shortens the remaining prefix by one |
| Settlement.NaturalPayout | BlackJack/src/main/java/org/example/game/BlackjackRound.java:112 | the natural payout is 2.5 times the bet rounded half up |
| Settlement.Decide | BlackJack/src/main/java/org/example/game/BlackjackRound.java:102-134 | a player bust loses everything whatever the dealer holds; for a positive bet, a win pays more than the bet, a push returns it and a loss pays nothing |
| Settlement.DecideIsRankComparison | BlackJack/src/main/java/org/example/game/BlackjackRound.java:102-134 | the first-match table is the same as comparing two strengths (bust lowest, a natural above a plain 21) and paying by the verdict, with 2.5 times the bet for a natural win |
| Settlement.BustBeatsDealerBust | BlackJack/src/main/java/org/example/game/BlackjackRound.java:102-105 | when both bust, the player loses with payout 0 |
| Settlement.PlainHandsCompareTotals | BlackJack/src/main/java/org/example/game/BlackjackRound.java:114-134 | without naturals and without a bust, the result is win, push or loss exactly as the player's total is above, equal to or below the dealer's |
| Settlement.DecideMonotoneInPlayerTotal | BlackJack/src/main/java/org/example/game/BlackjackRound.java:102-134 | a higher player total up to 21 never gives a worse result against the same dealer |
| Rounds.Start | BlackJack/src/main/java/org/example/game/BlackjackRound.java:11-21 | after start the dealer shows 1 card, the player holds 2, a hidden card exists, 48 remain, nothing is revealed or settled, and the 52 cards are all still in play |
| Rounds.Deal | BlackJack/src/main/java/org/example/game/BlackjackRound.java:13-20 | dealing a full deck gives the shape above and keeps every card |
| Rounds.DealConserves | BlackJack/src/main/java/org/example/game/BlackjackRound.java:15-18 | the four dealt cards and the 48 left make up the deck |
| Rounds.DealDrawsFromTop | BlackJack/src/main/java/org/example/game/BlackjackRound.java:15-18 | the cards come off the top in the order hidden, dealer up-card, player, player |
| Rounds.DealerTotals | BlackJack/src/main/java/org/example/game/BlackjackRound.java:74-80 | the visible total excludes the hidden card and the dealer total is the total with it appended |
| Rounds.PlayerNaturalIsAceAndTen | BlackJack/src/main/java/org/example/game/BlackjackRound.java:82-84 | a two-card player hand is a natural exactly when its points add up to 21 |
| Rounds.DealerNaturalIsUpCardPlusHidden | BlackJack/src/main/java/org/example/game/BlackjackRound.java:86-88 | with one visible card, the dealer has a natural exactly when up-card plus hidden card make 21 |
| Rounds.TotalWithPair | BlackJack/src/main/java/org/example/game/BlackjackRound.java:86-88 | one card plus one extra totals 21 exactly when their points add up to 21 |
| Rounds.PlayerHit | BlackJack/src/main/java/org/example/game/BlackjackRound.java:47-52 | hitting a settled round fails; the hit succeeds exactly when the round is ongoing and the deck has a card, and then it appends exactly the top card to the player, takes it off the deck, changes nothing else and loses no card |
| Rounds.DrawDealer | BlackJack/src/main/java/org/example/game/BlackjackRound.java:61-63 | the dealer takes cards from the top while the total with the hidden card is below 17, drew each card at a total below 17, and stops at 17 or more unless the deck ran out |
| Rounds.DrawStep | BlackJack/src/main/java/org/example/game/BlackjackRound.java:61-63 | one more draw at a total below 17 extends the hand by the next top card and keeps every draw justified |
| Rounds.DrewOnlyExtends | BlackJack/src/main/java/org/example/game/BlackjackRound.java:61-63 | a card drawn at a total below 17 keeps the record of justified draws |
| Rounds.DealerRunsOutIff | BlackJack/src/main/java/org/example/game/BlackjackRound.java:61-63 | once the loop has stopped, the deck ran out exactly when the total is still below 17, so a stop at 17 or more before the last card is never a failure |
| Rounds.StopBlocksRunOut | BlackJack/src/main/java/org/example/game/BlackjackRound.java:61-63 | a total of 17 or more reached before the deck is used up means the dealer would not have drawn all of it |
| Rounds.PlayDealerTurn | BlackJack/src/main/java/org/example/game/BlackjackRound.java:59-64 | the dealer turn fails exactly when the deck runs out (every card drawn below 17 and the total still below 17); otherwise it reveals, only appends top cards to the dealer, leaves the player and hidden card alone, ends with a dealer total of at least 17 and keeps every card |
| Rounds.DealerDrawConserves | BlackJack/src/main/java/org/example/game/BlackjackRound.java:61-63 | moving top cards from the deck to the dealer loses no card |
| Rounds.PlayerStand | BlackJack/src/main/java/org/example/game/BlackjackRound.java:54-57 | standing on a settled round fails; on an ongoing round it fails exactly when the dealer turn runs out of cards, and otherwise the dealer has drawn to 17 and the round stays unsettled |
| Rounds.Settle | BlackJack/src/main/java/org/example/game/BlackjackRound.java:90-138 | settling fails exactly when already settled; otherwise it reveals, marks settled, keeps the cards, and a player bust loses with payout 0 |
| Rounds.SettleOnlyOnce | BlackJack/src/main/java/org/example/game/BlackjackRound.java:140-144 | after a settle, a second settle and a hit both fail with the already-settled error |
| Rounds.SettleRanksHands | BlackJack/src/main/java/org/example/game/BlackjackRound.java:93-134 | the round's outcome is the strength comparison of the player's total and natural against the dealer's total with the hidden card and natural |
| Rounds.SettleConserves | BlackJack/src/main/java/org/example/game/BlackjackRound.java:90-138 | settling keeps all 52 cards in play |
| Ledger.FindIndex | BlackJack/src/main/java/org/example/db/DatabaseService.java:130-143 | the lookup finds the first account with the email, and finds none exactly when no account has it |
| Ledger.FindUserByEmail | BlackJack/src/main/java/org/example/db/DatabaseService.java:130-143 | the result is an existing account with that email and its password hash, or nothing exactly when no account has that email |
| Ledger.Commit | BlackJack/src/main/java/org/example/db/DatabaseService.java:100-107 | inserting a journal row appends it, sets its account's wallet balance to the row's closing balance, leaves that wallet's last-credit day and every other wallet, account and session untouched, and creates no wallet |
| Ledger.GetBalance | BlackJack/src/main/java/org/example/db/DatabaseService.java:205-215 | an account without a wallet reads as balance 0 |
| Ledger.CreateUser | BlackJack/src/main/java/org/example/db/DatabaseService.java:145-171 | a taken email fails with nothing added; otherwise the next id gets the account, a wallet of 10000 credited today and one INIT row (10000, from 0 to 10000); the wallet map gains exactly that wallet and no other wallet changes |
| Ledger.ApplyDailyCredit | BlackJack/src/main/java/org/example/db/DatabaseService.java:173-203 | a wallet not yet credited today gains 1000 through one appended DAILY_CREDIT row (1000, from b to b + 1000) and is marked credited today, and no other wallet, account or session changes; otherwise nothing changes at all |
| Ledger.StartSession | BlackJack/src/main/java/org/example/db/DatabaseService.java:217-236 | a session for a missing account is refused; otherwise the next session id gets an open session with zero totals and nothing else changes |
| Ledger.PlaceBet | BlackJack/src/main/java/org/example/db/DatabaseService.java:238-275 | a non-positive amount and an amount above the balance fail with no change; otherwise one BET row of minus the amount is appended, only the bettor's wallet balance changes (down by the amount, staying non-negative; its last-credit day is kept), the session's total bet grows by it, and nothing else changes |
| Ledger.Settle | BlackJack/src/main/java/org/example/db/DatabaseService.java:277-309 | one PAYOUT row of delta is appended, only the player's wallet balance changes (up by delta; its last-credit day is kept), the session's total payout grows by delta and it gets its result and end time; other sessions and wallets stay |
| Ledger.ChainedReplaysSum | BlackJack/src/main/java/org/example/db/DatabaseService.java:100-107 | when every row opens at its account's previous closing balance, the last closing balance equals the sum of the account's amounts |
| Ledger.BalanceIsJournalSum | BlackJack/src/main/java/org/example/db/DatabaseService.java:88-107 | in a consistent store every wallet balance is the sum of its account's journal amounts |
| Ledger.EmptyStoreValid | BlackJack/src/main/java/org/example/db/DatabaseService.java:40-107 | the empty database is consistent |
| Ledger.CommitKeepsJournal | BlackJack/src/main/java/org/example/db/DatabaseService.java:100-107 | appending a row that opens at its account's balance keeps wallets equal to journal replay and the journal chained |
| Ledger.CreateUserKeepsValid | BlackJack/src/main/java/org/example/db/DatabaseService.java:89-97 | account creation with its init trigger keeps the store consistent |
| Ledger.CommitUnsessionedKeepsValid | BlackJack/src/main/java/org/example/db/DatabaseService.java:177-181 | appending a correctly chained row outside any session keeps the store consistent |
| Ledger.ApplyDailyCreditKeepsValid | BlackJack/src/main/java/org/example/db/DatabaseService.java:173-203 | on a consistent store the daily credit never fails and keeps the store consistent |
| Ledger.StartSessionKeepsValid | BlackJack/src/main/java/org/example/db/DatabaseService.java:217-236 | opening a session keeps the store consistent |
| Ledger.PlaceBetKeepsValid | BlackJack/src/main/java/org/example/db/DatabaseService.java:238-275 | a successful bet keeps the store consistent, including the session's total bet matching its BET rows |
| Ledger.SettleKeepsValid | BlackJack/src/main/java/org/example/db/DatabaseService.java:277-309 | a successful settle keeps the store consistent, including the session's total payout matching its PAYOUT rows |
| Ledger.SessionRowKeepsMatch | BlackJack/src/main/java/org/example/db/DatabaseService.java:262-264 | a session row whose running totals absorb the new journal row keeps every session's totals equal to its journal rows |
| Ledger.CreateThenFind | BlackJack/src/main/java/org/example/db/DatabaseService.java:130-171 | a freshly created account is what a lookup by its email finds, with its password hash |
| Ledger.DailyCreditOncePerDay | BlackJack/src/main/java/org/example/db/DatabaseService.java:181-186 | a second daily credit on the same day changes nothing |
| Ledger.BetThenSettle | BlackJack/src/main/java/org/example/db/DatabaseService.java:238-309 | a bet followed by the settle of its round always succeeds, moves the balance by payout minus bet, never below 0 for a non-negative payout, and keeps the store consistent |
| AppFx.ReduceLoop | BlackJack/src/main/java/org/example/AppFX.java:523 | the window's reduction loop computes the same soft-ace reduction as the hand total |
| AppFx.CountPoints | BlackJack/src/main/java/org/example/AppFX.java:521-522 | the counting loop yields the hand's points sum and its number of aces |
| AppFx.ComputeTotal | BlackJack/src/main/java/org/example/AppFX.java:520-525 | `computeTotal` equals the game package's hand total |
| AppFx.ComputeDealerTotal | BlackJack/src/main/java/org/example/AppFX.java:527-533 | with reveal the dealer total includes the hidden card (if any) exactly as `total(hidden)` does; without, it is the visible total |
| AppFx.SwapShuffle | BlackJack/src/main/java/org/example/AppFX.java:488-491 | whatever index is picked at each step, the swap loop keeps the multiset of cards |
| AppFx.StartRound | BlackJack/src/main/java/org/example/AppFX.java:480-499 | the new deck holds each of the 52 cards once, the deal is the game package's deal of it (48 left, 1 + hidden for the dealer, 2 for the player) and the round is unsettled |
| AppFx.DealerPlay | BlackJack/src/main/java/org/example/AppFX.java:513-518 | the window's dealer loop draws exactly as the round's dealer turn does and ends with the revealed total at least 17; it fails exactly when the deck runs out first |
| AppFx.WindowDealerTurn | BlackJack/src/main/java/org/example/AppFX.java:513-518 | the table the loop leaves is the round's dealer turn on the same cards |
| AppFx.SettleAndFinish | BlackJack/src/main/java/org/example/AppFX.java:535-591 | settling an already settled table does nothing; otherwise it decides an outcome and marks the table settled; a bust loses; a win pays more than the bet |
| AppFx.SettleAgreesWithRound | BlackJack/src/main/java/org/example/AppFX.java:538-574 | the window decides the same outcome as `BlackjackRound.settle` on the same cards and bet, and where the round raises on a second settle the window silently returns |
| AppFx.SettleTwiceIsSilent | BlackJack/src/main/java/org/example/AppFX.java:536 | after one settle the table is settled and a second settle changes nothing |
| AppFx.Digits | BlackJack/src/main/java/org/example/AppFX.java:458 | the filtered text holds only digits, keeps every digit of the input and adds none |
| AppFx.DigitsSingle | BlackJack/src/main/java/org/example/AppFX.java:458 | one character survives the filter exactly when it is a digit |
| AppFx.DigitsAppend | BlackJack/src/main/java/org/example/AppFX.java:458 | the filter works piecewise over a concatenation, so it keeps the digits in their order and with their repeats |
| AppFx.ClampBet | BlackJack/src/main/java/org/example/AppFX.java:462-468 | the applied bet is a multiple of 250 between 250 and max(250, balance), and the largest such multiple not above the value clamped to that range |
| AppFx.FloorToStep | BlackJack/src/main/java/org/example/AppFX.java:466 | rounding down to the step gives the largest multiple of 250 not above the value |
| AppFx.ClampBetIdempotent | BlackJack/src/main/java/org/example/AppFX.java:462-468 | clamping an already clamped bet changes nothing |
| AppFx.ApplyBetEditor | BlackJack/src/main/java/org/example/AppFX.java:456-478 | text without digits (or a number above the int range) leaves the window unchanged; otherwise the bet becomes the clamped value, a multiple of 250 in [250, max(250, balance)], the cards stay and the round is always marked unsettled |
| AppFx.EnsureBetAffordable | BlackJack/src/main/java/org/example/AppFX.java:674-692 | the check fails exactly when the balance is below 250; on success the bet is within the balance, kept if it already was, and otherwise lowered to the balance rounded down to a multiple of 50 |
| AppFx.AffordableBetIsAccepted | BlackJack/src/main/java/org/example/AppFX.java:674-692 | a bet that passed the affordability check is accepted by `placeBet` |
| AppFx.EditedBetIsAccepted | BlackJack/src/main/java/org/example/AppFX.java:456-478 | with a balance of at least 250, any bet the editor sets from text whose digits `Integer.parseInt` accepts is accepted by `placeBet` |

## Left out

- The user interface: `ui/GameRenderer.java`, scene building, canvas drawing,
  dialogs and alerts in `AppFX.java`, and the early Swing prototype `BlackJack.java`.
  None of it decides game or wallet state.
- `SecurityUtil.java` (BCrypt): a password hash is an opaque string stored and
  returned as is.
- JDBC and SQLite plumbing: connection handling, the APPDATA path, schema DDL,
  generated-key fallbacks. Transactions are modelled as all-or-nothing steps.
- The database methods duplicated in `AppFX.java` (lines 842-950); the ledger is modelled once.
- The distribution of `SecureRandom`/`Random`; a shuffle is any sequence of in-range picks.
- Concurrency: `placeBet` and `settle` read the balance before opening their
  transaction; the model runs operations one at a time and claims nothing about races.
- Java `int` overflow (`bet * 2`, balances, `Math.round` on huge bets): integers are unbounded.
  `Integer.parseInt` on more than `Integer.MAX_VALUE` is modelled as leaving the bet unchanged,
  the effect of the exception on the handler.
- The display strings of `RoundOutcome.message` and of `resultMsg`.
- The button-handler orchestration of `AppFX.java` (which button runs which step, the
  natural blackjack settled in `startRound`, the `settle` database call inside
  `settleAndFinish`, `refreshBalanceUI`), and the `dealerRevealed` flag, which the
  window does not keep.
- `revealDealer` is only an assignment of the `revealed` field and has no member of its own.
- Rounds.PlayDealerTurn: when the deck runs out mid-turn the source throws after having
  already drawn some cards; the model returns `EmptyDeck` without the partial state.
- AppFx.DealerPlay: same as above for the window's dealer loop.
- Ledger.GetBalance: only the no-wallet case is stated in its own contract; that the balance
  is the journal sum is `Ledger.BalanceIsJournalSum`.
- Ledger.Settle: does not state that the payout row's closing balance is non-negative,
  because the source does not check it; `Ledger.BetThenSettle` states it for the payouts the
  game produces.
