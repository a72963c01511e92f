/**
  The persistence layer: accounts, their wallets, game sessions and the append-only
  transaction journal, with the two triggers that keep them consistent. Each table is a
  sequence or map; SQLite's AUTOINCREMENT keys start at 1 and nothing is ever deleted,
  so the row at index `i` of a table has key `i + 1`. Dates and timestamps are plain
  integers supplied by the caller (days for the daily credit, an opaque instant for
  sessions), because the system clock is not part of the model.
*/
module Ledger {
  import opened Results

  type AccountId = int
  type SessionId = int

  /** Credit written by the account-creation trigger. */
  const InitialBalance: int := 10000
  /** Credit granted at most once per calendar day. */
  const DailyBonus: int := 1000

  datatype Account = Account(email: string, pseudo: string, passwordHash: string)
  datatype Wallet = Wallet(balance: int, lastDailyCredit: int)
  datatype Session = Session(account: AccountId, startedAt: int, totalBet: int, totalPayout: int,
                             result: Option<string>, endedAt: Option<int>)
  datatype EntryKind = Init | DailyCredit | Bet | Payout
  /** One row of the journal: who, in which session (if any), what, and the balance
      immediately before and after. */
  datatype Entry = Entry(account: AccountId, session: Option<SessionId>, kind: EntryKind,
                         amount: int, before: int, after: int)
  datatype Store = Store(accounts: seq<Account>, wallets: map<AccountId, Wallet>,
                         sessions: seq<Session>, entries: seq<Entry>)
  datatype DbError = DuplicateEmail | InvalidAmount | InsufficientFunds(balance: int) | ForeignKeyViolation

  const EmptyStore: Store := Store([], map[], [], [])

  predicate HasAccount(st: Store, id: AccountId) { 1 <= id <= |st.accounts| }
  predicate HasSession(st: Store, sid: SessionId) { 1 <= sid <= |st.sessions| }

  // ---------------------------------------------------------------- journal replay

  /** The balance recorded by the last journal row of account `a`, or 0 when it has none. */
  function LastAfter(es: seq<Entry>, a: AccountId): int
  {
    if |es| == 0 then 0
    else if es[|es| - 1].account == a then es[|es| - 1].after
    else LastAfter(es[..|es| - 1], a)
  }

  /** The sum of the amounts of every journal row of account `a`. */
  function SumAmounts(es: seq<Entry>, a: AccountId): int
  {
    if |es| == 0 then 0
    else SumAmounts(es[..|es| - 1], a) + (if es[|es| - 1].account == a then es[|es| - 1].amount else 0)
  }

  /** The sum of the amounts of the rows of one kind tagged with session `sid`. */
  function SessionSum(es: seq<Entry>, sid: SessionId, kind: EntryKind): int
  {
    if |es| == 0 then 0
    else
      var e := es[|es| - 1];
      SessionSum(es[..|es| - 1], sid, kind) + (if e.session == Some(sid) && e.kind == kind then e.amount else 0)
  }

  /** Every row starts from the balance its account's previous row ended with (0 for the
      first one) and moves it by exactly its amount. */
  ghost predicate Chained(es: seq<Entry>)
  {
    forall i :: 0 <= i < |es| ==>
      es[i].before == LastAfter(es[..i], es[i].account) && es[i].after == es[i].before + es[i].amount
  }

  ghost predicate EmailsUnique(accounts: seq<Account>)
  {
    forall i, j :: 0 <= i < j < |accounts| ==> accounts[i].email != accounts[j].email
  }

  ghost predicate SessionsMatchJournal(st: Store)
  {
    forall k :: 0 <= k < |st.sessions| ==>
      HasAccount(st, st.sessions[k].account)
      && st.sessions[k].totalBet == -SessionSum(st.entries, k + 1, Bet)
      && st.sessions[k].totalPayout == SessionSum(st.entries, k + 1, Payout)
  }

  ghost predicate JournalRefsExist(st: Store)
  {
    forall i :: 0 <= i < |st.entries| ==>
      HasAccount(st, st.entries[i].account)
      && (st.entries[i].session.Some? ==> HasSession(st, st.entries[i].session.value))
  }

  /** The consistency the schema, its foreign keys and its triggers maintain: exactly
      one wallet per account, each wallet holding the balance its journal ends with. */
  ghost predicate Valid(st: Store)
  {
    && (forall id :: id in st.wallets <==> HasAccount(st, id))
    && (forall id :: id in st.wallets ==> st.wallets[id].balance == LastAfter(st.entries, id))
    && Chained(st.entries)
    && JournalRefsExist(st)
    && SessionsMatchJournal(st)
    && EmailsUnique(st.accounts)
  }

  // ---------------------------------------------------------------- journal insert

  /** The commit trigger: appending a journal row sets its account's wallet balance to
      the row's closing balance (no wallet, no update). */
  function Commit(st: Store, e: Entry): (st': Store)
    ensures st'.entries == st.entries + [e]
    ensures st'.accounts == st.accounts && st'.sessions == st.sessions
    ensures st'.wallets.Keys == st.wallets.Keys
    ensures e.account in st.wallets ==> st'.wallets[e.account] == st.wallets[e.account].(balance := e.after)
    ensures forall a :: a in st.wallets && a != e.account ==> st'.wallets[a] == st.wallets[a]
  {
    st.(entries := st.entries + [e],
        wallets := if e.account in st.wallets
                   then st.wallets[e.account := st.wallets[e.account].(balance := e.after)]
                   else st.wallets)
  }

  /** A journal insert, refused when the account or the session it names does not exist. */
  function InsertEntry(st: Store, e: Entry): (r: Result<Store, DbError>)
    ensures r.Err? <==> !HasAccount(st, e.account) || (e.session.Some? && !HasSession(st, e.session.value))
    ensures r.Err? ==> r.error == ForeignKeyViolation
    ensures r.Ok? ==> r.value == Commit(st, e)
  {
    if !HasAccount(st, e.account) || (e.session.Some? && !HasSession(st, e.session.value))
    then Err(ForeignKeyViolation)
    else Ok(Commit(st, e))
  }

  // ---------------------------------------------------------------- queries

  /** Position of the first account with the given email. */
  function FindIndex(accounts: seq<Account>, email: string): (r: Option<nat>)
    ensures r.None? <==> forall i :: 0 <= i < |accounts| ==> accounts[i].email != email
    ensures r.Some? ==> r.value < |accounts| && accounts[r.value].email == email
    ensures r.Some? ==> forall i :: 0 <= i < r.value ==> accounts[i].email != email
  {
    if |accounts| == 0 then None
    else if accounts[0].email == email then Some(0)
    else match FindIndex(accounts[1..], email)
      case None => None
      case Some(k) => Some(k + 1)
  }

  /** `findUserByEmail`: the key and password hash of the account registered under `email`. */
  function FindUserByEmail(st: Store, email: string): (r: Option<(AccountId, string)>)
    ensures r.None? <==> forall i :: 0 <= i < |st.accounts| ==> st.accounts[i].email != email
    ensures r.Some? ==>
      && HasAccount(st, r.value.0) && st.accounts[r.value.0 - 1].email == email
      && r.value.1 == st.accounts[r.value.0 - 1].passwordHash
  {
    match FindIndex(st.accounts, email)
    case None => None
    case Some(i) => Some((i + 1, st.accounts[i].passwordHash))
  }

  /** `getBalance`: the wallet balance, or 0 when the account has no wallet. */
  function GetBalance(st: Store, id: AccountId): (b: int)
    ensures id !in st.wallets ==> b == 0
  {
    if id in st.wallets then st.wallets[id].balance else 0
  }

  // ---------------------------------------------------------------- commands

  /** `createUser` and the wallet-initialising trigger: a new account with a wallet of
      10000 credited today, journalled as an INIT row; refused for an email already in use. */
  function CreateUser(st: Store, email: string, pseudo: string, passwordHash: string, today: int)
    : (r: Result<(Store, AccountId), DbError>)
    ensures r.Err? <==> exists i :: 0 <= i < |st.accounts| && st.accounts[i].email == email
    ensures r.Err? ==> r.error == DuplicateEmail
    ensures r.Ok? ==> var (st', id) := r.value;
      && id == |st.accounts| + 1 && HasAccount(st', id)
      && st'.accounts == st.accounts + [Account(email, pseudo, passwordHash)]
      && id in st'.wallets && st'.wallets[id] == Wallet(InitialBalance, today)
      && st'.wallets == st.wallets[id := Wallet(InitialBalance, today)]
      && st'.entries == st.entries + [Entry(id, None, Init, InitialBalance, 0, InitialBalance)]
      && st'.sessions == st.sessions
      && (forall other :: other != id ==> GetBalance(st', other) == GetBalance(st, other))
  {
    match FindUserByEmail(st, email)
    case Some(_) => Err(DuplicateEmail)
    case None =>
      var id := |st.accounts| + 1;
      var withUser := st.(accounts := st.accounts + [Account(email, pseudo, passwordHash)],
                          wallets := st.wallets[id := Wallet(InitialBalance, today)]);
      Ok((Commit(withUser, Entry(id, None, Init, InitialBalance, 0, InitialBalance)), id))
  }

  /** True when the account has a wallet not yet credited on day `today`. */
  predicate DailyCreditDue(st: Store, id: AccountId, today: int)
  {
    id in st.wallets && st.wallets[id].lastDailyCredit < today
  }

  /** `applyDailyCredit`: at most one credit of 1000 per day, journalled as a DAILY_CREDIT
      row, after which the wallet is marked as credited today. */
  function ApplyDailyCredit(st: Store, id: AccountId, today: int): (r: Result<Store, DbError>)
    ensures !DailyCreditDue(st, id, today) ==> r == Ok(st)
    ensures r.Err? ==> r.error == ForeignKeyViolation && !HasAccount(st, id)
    ensures r.Ok? && DailyCreditDue(st, id, today) ==> var st' := r.value;
      && GetBalance(st', id) == GetBalance(st, id) + DailyBonus
      && id in st'.wallets && st'.wallets[id].lastDailyCredit == today
      && st'.entries == st.entries + [Entry(id, None, DailyCredit, DailyBonus,
                                            GetBalance(st, id), GetBalance(st, id) + DailyBonus)]
      && st'.wallets == st.wallets[id := Wallet(GetBalance(st, id) + DailyBonus, today)]
      && st'.accounts == st.accounts && st'.sessions == st.sessions
      && (forall other :: other != id ==> GetBalance(st', other) == GetBalance(st, other))
  {
    if DailyCreditDue(st, id, today) then
      var w := st.wallets[id];
      match InsertEntry(st, Entry(id, None, DailyCredit, DailyBonus, w.balance, w.balance + DailyBonus))
      case Err(e) => Err(e)
      case Ok(st1) => Ok(st1.(wallets := st1.wallets[id := st1.wallets[id].(lastDailyCredit := today)]))
    else Ok(st)
  }

  /** `startSession`: a new, empty session row owned by an existing account. */
  function StartSession(st: Store, id: AccountId, now: int): (r: Result<(Store, SessionId), DbError>)
    ensures r.Err? <==> !HasAccount(st, id)
    ensures r.Err? ==> r.error == ForeignKeyViolation
    ensures r.Ok? ==> var (st', sid) := r.value;
      && sid == |st.sessions| + 1 && HasSession(st', sid)
      && st'.sessions[sid - 1] == Session(id, now, 0, 0, None, None)
      && st'.sessions[..sid - 1] == st.sessions
      && st'.accounts == st.accounts && st'.wallets == st.wallets && st'.entries == st.entries
  {
    if !HasAccount(st, id) then Err(ForeignKeyViolation)
    else Ok((st.(sessions := st.sessions + [Session(id, now, 0, 0, None, None)]), |st.sessions| + 1))
  }

  /** `placeBet`: debit `amount` from the balance, journalled as a BET row of the session,
      and add it to the session's total stake. Checked in the source's order: the amount,
      then the funds, then the foreign keys of the journal row. */
  function PlaceBet(st: Store, id: AccountId, sid: SessionId, amount: int): (r: Result<Store, DbError>)
    ensures amount <= 0 ==> r == Err(InvalidAmount)
    ensures amount > 0 && GetBalance(st, id) < amount ==> r == Err(InsufficientFunds(GetBalance(st, id)))
    ensures amount > 0 && GetBalance(st, id) >= amount ==>
      (r.Err? <==> !HasAccount(st, id) || !HasSession(st, sid))
    ensures r.Err? && r.error == ForeignKeyViolation ==> !HasAccount(st, id) || !HasSession(st, sid)
    ensures r.Ok? ==> var st' := r.value;
      && 0 < amount <= GetBalance(st, id)
      && HasSession(st, sid) && HasAccount(st, id)
      && (id in st.wallets ==> GetBalance(st', id) == GetBalance(st, id) - amount)
      && id in st.wallets
      && st'.wallets == st.wallets[id := st.wallets[id].(balance := GetBalance(st, id) - amount)]
      && GetBalance(st', id) >= 0
      && st'.entries == st.entries + [Entry(id, Some(sid), Bet, -amount, GetBalance(st, id), GetBalance(st, id) - amount)]
      && |st'.sessions| == |st.sessions|
      && st'.sessions[sid - 1] == st.sessions[sid - 1].(totalBet := st.sessions[sid - 1].totalBet + amount)
      && (forall k :: 0 <= k < |st.sessions| && k != sid - 1 ==> st'.sessions[k] == st.sessions[k])
      && (forall other :: other != id ==> GetBalance(st', other) == GetBalance(st, other))
      && st'.accounts == st.accounts
  {
    if amount <= 0 then Err(InvalidAmount)
    else
      var before := GetBalance(st, id);
      var after := before - amount;
      if after < 0 then Err(InsufficientFunds(before))
      else match InsertEntry(st, Entry(id, Some(sid), Bet, -amount, before, after))
        case Err(e) => Err(e)
        case Ok(st1) =>
          var s := st1.sessions[sid - 1];
          Ok(st1.(sessions := st1.sessions[sid - 1 := s.(totalBet := s.totalBet + amount)]))
  }

  /** `settle`: credit the round's gross return `delta` (journalled as a PAYOUT row), add
      it to the session's total return, and record the session's result and end time. */
  function Settle(st: Store, id: AccountId, sid: SessionId, delta: int, result: string, now: int)
    : (r: Result<Store, DbError>)
    ensures r.Err? <==> !HasAccount(st, id) || !HasSession(st, sid)
    ensures r.Err? ==> r.error == ForeignKeyViolation
    ensures r.Ok? ==> var st' := r.value;
      && (id in st.wallets ==> GetBalance(st', id) == GetBalance(st, id) + delta)
      && (id in st.wallets ==> st'.wallets == st.wallets[id := st.wallets[id].(balance := GetBalance(st, id) + delta)])
      && (id !in st.wallets ==> st'.wallets == st.wallets)
      && st'.entries == st.entries + [Entry(id, Some(sid), Payout, delta, GetBalance(st, id), GetBalance(st, id) + delta)]
      && |st'.sessions| == |st.sessions|
      && st'.sessions[sid - 1] == st.sessions[sid - 1].(totalPayout := st.sessions[sid - 1].totalPayout + delta,
                                                      result := Some(result), endedAt := Some(now))
      && (forall k :: 0 <= k < |st.sessions| && k != sid - 1 ==> st'.sessions[k] == st.sessions[k])
      && (forall other :: other != id ==> GetBalance(st', other) == GetBalance(st, other))
      && st'.accounts == st.accounts
  {
    var before := GetBalance(st, id);
    match InsertEntry(st, Entry(id, Some(sid), Payout, delta, before, before + delta))
    case Err(e) => Err(e)
    case Ok(st1) =>
      var s := st1.sessions[sid - 1];
      Ok(st1.(sessions := st1.sessions[sid - 1 := s.(totalPayout := s.totalPayout + delta,
                                                      result := Some(result), endedAt := Some(now))]))
  }

  // ---------------------------------------------------------------- journal lemmas

  lemma LastAfterSnoc(es: seq<Entry>, e: Entry, a: AccountId)
    ensures LastAfter(es + [e], a) == if e.account == a then e.after else LastAfter(es, a)
  {
    assert (es + [e])[..|es|] == es;
  }

  lemma SessionSumSnoc(es: seq<Entry>, e: Entry, sid: SessionId, kind: EntryKind)
    ensures SessionSum(es + [e], sid, kind)
      == SessionSum(es, sid, kind) + (if e.session == Some(sid) && e.kind == kind then e.amount else 0)
  {
    assert (es + [e])[..|es|] == es;
  }

  /** An account that has no journal row has a replayed balance of 0. */
  lemma {:induction false} LastAfterAbsent(es: seq<Entry>, a: AccountId)
    requires forall i :: 0 <= i < |es| ==> es[i].account != a
    ensures LastAfter(es, a) == 0
  {
    if |es| > 0 {
      LastAfterAbsent(es[..|es| - 1], a);
    }
  }

  /** A session no journal row names has no stake and no return. */
  lemma {:induction false} SessionSumAbsent(es: seq<Entry>, sid: SessionId, kind: EntryKind)
    requires forall i :: 0 <= i < |es| ==> es[i].session != Some(sid)
    ensures SessionSum(es, sid, kind) == 0
  {
    if |es| > 0 {
      SessionSumAbsent(es[..|es| - 1], sid, kind);
    }
  }

  /** A row that starts from its account's current balance keeps the journal chained. */
  lemma ChainedSnoc(es: seq<Entry>, e: Entry)
    requires Chained(es)
    requires e.before == LastAfter(es, e.account) && e.after == e.before + e.amount
    ensures Chained(es + [e])
  {
    var es' := es + [e];
    forall i | 0 <= i < |es'|
      ensures es'[i].before == LastAfter(es'[..i], es'[i].account) && es'[i].after == es'[i].before + es'[i].amount
    {
      if i < |es| {
        assert es'[..i] == es[..i];
      } else {
        assert es'[..i] == es;
      }
    }
  }

  /** In a chained journal every account's last closing balance is the sum of all its
      amounts: the balance can be recomputed from the journal alone. */
  lemma {:induction false} ChainedReplaysSum(es: seq<Entry>, a: AccountId)
    requires Chained(es)
    ensures LastAfter(es, a) == SumAmounts(es, a)
  {
    if |es| > 0 {
      var init := es[..|es| - 1];
      assert Chained(init) by {
        forall i | 0 <= i < |init|
          ensures init[i].before == LastAfter(init[..i], init[i].account) && init[i].after == init[i].before + init[i].amount
        {
          assert init[..i] == es[..i];
        }
      }
      ChainedReplaysSum(init, a);
      assert es[|es| - 1].before == LastAfter(init, es[|es| - 1].account);
    }
  }

  /** The wallet of every account holds exactly the sum of its journal amounts. */
  lemma BalanceIsJournalSum(st: Store, id: AccountId)
    requires Valid(st) && HasAccount(st, id)
    ensures GetBalance(st, id) == SumAmounts(st.entries, id)
  {
    ChainedReplaysSum(st.entries, id);
  }

  lemma EmptyStoreValid()
    ensures Valid(EmptyStore)
  {
  }

  /** Appending a well-formed journal row through the commit trigger keeps every part of
      `Valid` that does not involve session totals. */
  lemma CommitKeepsJournal(st: Store, e: Entry)
    requires Valid(st)
    requires HasAccount(st, e.account) && (e.session.Some? ==> HasSession(st, e.session.value))
    requires e.before == GetBalance(st, e.account) && e.after == e.before + e.amount
    ensures var st' := Commit(st, e);
      && (forall id :: id in st'.wallets <==> HasAccount(st', id))
      && (forall id :: id in st'.wallets ==> st'.wallets[id].balance == LastAfter(st'.entries, id))
      && Chained(st'.entries) && JournalRefsExist(st') && EmailsUnique(st'.accounts)
  {
    var st' := Commit(st, e);
    forall id | id in st'.wallets
      ensures st'.wallets[id].balance == LastAfter(st'.entries, id)
    {
      LastAfterSnoc(st.entries, e, id);
    }
    ChainedSnoc(st.entries, e);
    assert JournalRefsExist(st') by {
      forall i | 0 <= i < |st'.entries|
        ensures HasAccount(st', st'.entries[i].account)
        ensures st'.entries[i].session.Some? ==> HasSession(st', st'.entries[i].session.value)
      {
        if i < |st.entries| {
          assert st'.entries[i] == st.entries[i];
        }
      }
    }
  }

  // ---------------------------------------------------------------- preservation

  lemma CreateUserKeepsValid(st: Store, email: string, pseudo: string, passwordHash: string, today: int)
    requires Valid(st)
    requires CreateUser(st, email, pseudo, passwordHash, today).Ok?
    ensures Valid(CreateUser(st, email, pseudo, passwordHash, today).value.0)
  {
    var (st', id) := CreateUser(st, email, pseudo, passwordHash, today).value;
    var e := Entry(id, None, Init, InitialBalance, 0, InitialBalance);
    assert st'.entries == st.entries + [e];
    assert LastAfter(st.entries, id) == 0 by {
      LastAfterAbsent(st.entries, id);
    }
    forall x | x in st'.wallets
      ensures st'.wallets[x].balance == LastAfter(st'.entries, x)
    {
      LastAfterSnoc(st.entries, e, x);
    }
    ChainedSnoc(st.entries, e);
    assert JournalRefsExist(st') by {
      forall i | 0 <= i < |st'.entries|
        ensures HasAccount(st', st'.entries[i].account)
        ensures st'.entries[i].session.Some? ==> HasSession(st', st'.entries[i].session.value)
      {
        if i < |st.entries| {
          assert st'.entries[i] == st.entries[i];
        }
      }
    }
    assert SessionsMatchJournal(st') by {
      forall k | 0 <= k < |st'.sessions|
        ensures st'.sessions[k].totalBet == -SessionSum(st'.entries, k + 1, Bet)
        ensures st'.sessions[k].totalPayout == SessionSum(st'.entries, k + 1, Payout)
      {
        SessionSumSnoc(st.entries, e, k + 1, Bet);
        SessionSumSnoc(st.entries, e, k + 1, Payout);
      }
    }
    assert EmailsUnique(st'.accounts) by {
      forall i, j | 0 <= i < j < |st'.accounts|
        ensures st'.accounts[i].email != st'.accounts[j].email
      {
        if j == |st.accounts| {
          assert st'.accounts[i] == st.accounts[i];
        } else {
          assert st'.accounts[i] == st.accounts[i] && st'.accounts[j] == st.accounts[j];
        }
      }
    }
  }

  /** A journal row outside every session leaves the session totals alone, so the
      commit keeps the whole of `Valid`. */
  lemma CommitUnsessionedKeepsValid(st: Store, e: Entry)
    requires Valid(st)
    requires HasAccount(st, e.account) && e.session.None?
    requires e.before == GetBalance(st, e.account) && e.after == e.before + e.amount
    ensures Valid(Commit(st, e))
  {
    var st' := Commit(st, e);
    CommitKeepsJournal(st, e);
    assert SessionsMatchJournal(st') by {
      forall k | 0 <= k < |st'.sessions|
        ensures st'.sessions[k].totalBet == -SessionSum(st'.entries, k + 1, Bet)
        ensures st'.sessions[k].totalPayout == SessionSum(st'.entries, k + 1, Payout)
      {
        SessionSumSnoc(st.entries, e, k + 1, Bet);
        SessionSumSnoc(st.entries, e, k + 1, Payout);
      }
    }
  }

  /** Recording the date of the last daily credit touches no balance. */
  lemma StampKeepsValid(st: Store, id: AccountId, day: int)
    requires Valid(st) && id in st.wallets
    ensures Valid(st.(wallets := st.wallets[id := st.wallets[id].(lastDailyCredit := day)]))
  {
  }

  lemma ApplyDailyCreditKeepsValid(st: Store, id: AccountId, today: int)
    requires Valid(st)
    ensures ApplyDailyCredit(st, id, today).Ok?
    ensures Valid(ApplyDailyCredit(st, id, today).value)
  {
    if DailyCreditDue(st, id, today) {
      var w := st.wallets[id];
      var e := Entry(id, None, DailyCredit, DailyBonus, w.balance, w.balance + DailyBonus);
      CommitUnsessionedKeepsValid(st, e);
      var c := Commit(st, e);
      assert ApplyDailyCredit(st, id, today).value == c.(wallets := c.wallets[id := c.wallets[id].(lastDailyCredit := today)]);
      StampKeepsValid(c, id, today);
    }
  }

  lemma StartSessionKeepsValid(st: Store, id: AccountId, now: int)
    requires Valid(st)
    requires StartSession(st, id, now).Ok?
    ensures Valid(StartSession(st, id, now).value.0)
  {
    var (st', sid) := StartSession(st, id, now).value;
    assert forall i :: 0 <= i < |st.entries| ==> st.entries[i].session != Some(sid);
    SessionSumAbsent(st.entries, sid, Bet);
    SessionSumAbsent(st.entries, sid, Payout);
    assert SessionsMatchJournal(st') by {
      forall k | 0 <= k < |st'.sessions|
        ensures HasAccount(st', st'.sessions[k].account)
        ensures st'.sessions[k].totalBet == -SessionSum(st'.entries, k + 1, Bet)
        ensures st'.sessions[k].totalPayout == SessionSum(st'.entries, k + 1, Payout)
      {
        if k < |st.sessions| {
          assert st'.sessions[k] == st.sessions[k];
        }
      }
    }
  }

  lemma PlaceBetKeepsValid(st: Store, id: AccountId, sid: SessionId, amount: int)
    requires Valid(st)
    requires PlaceBet(st, id, sid, amount).Ok?
    ensures Valid(PlaceBet(st, id, sid, amount).value)
  {
    var before := GetBalance(st, id);
    var e := Entry(id, Some(sid), Bet, -amount, before, before - amount);
    CommitKeepsJournal(st, e);
    var st' := PlaceBet(st, id, sid, amount).value;
    var s := st.sessions[sid - 1];
    assert st' == Commit(st, e).(sessions := st.sessions[sid - 1 := s.(totalBet := s.totalBet + amount)]);
    SessionRowKeepsMatch(st, st', e, sid);
  }

  lemma SettleKeepsValid(st: Store, id: AccountId, sid: SessionId, delta: int, result: string, now: int)
    requires Valid(st)
    requires Settle(st, id, sid, delta, result, now).Ok?
    ensures Valid(Settle(st, id, sid, delta, result, now).value)
  {
    var before := GetBalance(st, id);
    var e := Entry(id, Some(sid), Payout, delta, before, before + delta);
    CommitKeepsJournal(st, e);
    var st' := Settle(st, id, sid, delta, result, now).value;
    var s := st.sessions[sid - 1];
    assert st' == Commit(st, e).(sessions := st.sessions[sid - 1 := s.(totalPayout := s.totalPayout + delta,
                                                                     result := Some(result), endedAt := Some(now))]);
    SessionRowKeepsMatch(st, st', e, sid);
  }

  /** A journal row of session `sid` that the session's running totals absorb keeps
      every session's totals equal to its journal rows. */
  lemma SessionRowKeepsMatch(st: Store, st': Store, e: Entry, sid: SessionId)
    requires SessionsMatchJournal(st) && HasSession(st, sid) && e.session == Some(sid)
    requires st'.accounts == st.accounts && st'.entries == st.entries + [e]
    requires |st'.sessions| == |st.sessions|
    requires st'.sessions[sid - 1].account == st.sessions[sid - 1].account
    requires st'.sessions[sid - 1].totalBet
          == st.sessions[sid - 1].totalBet - (if e.kind == Bet then e.amount else 0)
    requires st'.sessions[sid - 1].totalPayout
          == st.sessions[sid - 1].totalPayout + (if e.kind == Payout then e.amount else 0)
    requires forall k :: 0 <= k < |st.sessions| && k != sid - 1 ==> st'.sessions[k] == st.sessions[k]
    ensures SessionsMatchJournal(st')
  {
    forall k | 0 <= k < |st'.sessions|
      ensures HasAccount(st', st'.sessions[k].account)
      ensures st'.sessions[k].totalBet == -SessionSum(st'.entries, k + 1, Bet)
      ensures st'.sessions[k].totalPayout == SessionSum(st'.entries, k + 1, Payout)
    {
      SessionSumSnoc(st.entries, e, k + 1, Bet);
      SessionSumSnoc(st.entries, e, k + 1, Payout);
    }
  }

  // ---------------------------------------------------------------- flows

  /** A freshly registered account is found again by its email, with its password hash. */
  lemma CreateThenFind(st: Store, email: string, pseudo: string, passwordHash: string, today: int)
    requires Valid(st)
    requires CreateUser(st, email, pseudo, passwordHash, today).Ok?
    ensures var (st', id) := CreateUser(st, email, pseudo, passwordHash, today).value;
      FindUserByEmail(st', email) == Some((id, passwordHash))
  {
    var (st', id) := CreateUser(st, email, pseudo, passwordHash, today).value;
    CreateUserKeepsValid(st, email, pseudo, passwordHash, today);
    assert st'.accounts[id - 1].email == email;
    assert forall i :: 0 <= i < |st'.accounts| && st'.accounts[i].email == email ==> i == id - 1;
  }

  /** A second daily credit on the same day changes nothing. */
  lemma DailyCreditOncePerDay(st: Store, id: AccountId, today: int)
    requires ApplyDailyCredit(st, id, today).Ok?
    ensures var st' := ApplyDailyCredit(st, id, today).value;
      ApplyDailyCredit(st', id, today) == Ok(st')
  {
  }

  /** One round's money flow: stake `bet` then receive the gross return `payout`; the
      balance moves by exactly `payout - bet`, and stays non-negative when the return is. */
  lemma BetThenSettle(st: Store, id: AccountId, sid: SessionId, bet: int, payout: int, result: string, now: int)
    requires Valid(st)
    requires PlaceBet(st, id, sid, bet).Ok?
    ensures var st1 := PlaceBet(st, id, sid, bet).value;
      var r := Settle(st1, id, sid, payout, result, now);
      && r.Ok?
      && GetBalance(r.value, id) == GetBalance(st, id) - bet + payout
      && (payout >= 0 ==> GetBalance(r.value, id) >= 0)
      && Valid(r.value)
  {
    var st1 := PlaceBet(st, id, sid, bet).value;
    PlaceBetKeepsValid(st, id, sid, bet);
    SettleKeepsValid(st1, id, sid, payout, result, now);
  }
}
