/**
 * Moving money between a player's cash and a bank account (deposit,
 * withdraw) and between two accounts (transfer), each inside one database
 * transaction, with rows appended to the transaction log.
 */
module Economy {
  import opened Schema
  import opened Accounting

  /** The database after inserting one transactions row stamped `now`. */
  function Logged(t: Tables, playerId: PlayerId, accountId: Option<AccountId>, amount: int,
                  kind: TxType, metadata: Meta, now: nat): (r: Tables)
    ensures r == t.(log := r.log)
    ensures |r.log| == |t.log| + 1 && r.log[..|t.log|] == t.log
    ensures r.log[|t.log|] == Entry(|t.log|, playerId, accountId, amount, kind, metadata, now)
  {
    t.(log := t.log + [Entry(|t.log|, playerId, accountId, amount, kind, metadata, now)])
  }

  /** Logging keeps the tables well formed: the new row's id is its
      position. */
  lemma LoggedKeepsValid(t: Tables, playerId: PlayerId, accountId: Option<AccountId>, amount: int,
                         kind: TxType, metadata: Meta, now: nat)
    requires t.Valid()
    ensures Logged(t, playerId, accountId, amount, kind, metadata, now).Valid()
  {
    var r := Logged(t, playerId, accountId, amount, kind, metadata, now);
    forall i | 0 <= i < |r.log| ensures r.log[i].id == i {
      if i < |t.log| {
        assert r.log[i] == r.log[..|t.log|][i];
      }
    }
  }

  /** logTransaction: insert one row; the row's id is the next free one. */
  method LogTransaction(db: Database, playerId: PlayerId, accountId: Option<AccountId>, amount: int,
                        kind: TxType, metadata: Meta, now: nat)
    modifies db
    ensures db.log == old(db.log) + [Entry(|old(db.log)|, playerId, accountId, amount, kind, metadata, now)]
    ensures db.Snapshot() == Logged(old(db.Snapshot()), playerId, accountId, amount, kind, metadata, now)
  {
    db.log := db.log + [Entry(|db.log|, playerId, accountId, amount, kind, metadata, now)];
  }

  /** What deposit and withdraw return: the updated player and account rows. */
  datatype Moved = Moved(player: Player, account: Account)

  /** What transfer returns: the rows as its two updates returned them. */
  datatype Transferred = Transferred(from: Account, to: Account)

  /** deposit: cash -> bank account. The player checks run before the
      transaction; a missing account throws inside it and rolls back the
      cash decrement already made. */
  function DepositStep(t: Tables, playerId: PlayerId, accountId: AccountId, amount: int, now: nat): (s: Step<Moved>)
    ensures playerId !in t.players ==> s.result == Err(PlayerNotFound)
    ensures playerId in t.players && t.players[playerId].cash < amount ==> s.result == Err(NotEnoughCash)
    ensures playerId in t.players && t.players[playerId].cash >= amount && accountId !in t.accounts ==>
              s.result == Err(BankAccountNotFound)
    ensures s.result.Ok? <==>
              playerId in t.players && t.players[playerId].cash >= amount && accountId in t.accounts
    ensures s.result.Err? ==> s.after == t
    ensures s.result.Ok? ==>
      var p, a := t.players[playerId], t.accounts[accountId];
      var p', a' := p.(cash := p.cash - amount), a.(balance := a.balance + amount);
      && p'.cash + a'.balance == p.cash + a.balance
      && s.result.value == Moved(p', a')
      && s.after == t.(players := t.players[playerId := p'], accounts := t.accounts[accountId := a'],
                       log := t.log + [Entry(|t.log|, playerId, Some(accountId), amount, DepositTx, NoMeta, now)])
    ensures t.Valid() ==> s.after.Valid()
    ensures t.NonNegative() && amount >= 0 ==> s.after.NonNegative()
  {
    if playerId !in t.players then Step(Err(PlayerNotFound), t)
    else
      var p := t.players[playerId];
      if p.cash < amount then Step(Err(NotEnoughCash), t)
      else if accountId !in t.accounts then Step(Err(BankAccountNotFound), t)
      else
        var a := t.accounts[accountId];
        var p', a' := p.(cash := p.cash - amount), a.(balance := a.balance + amount);
        var t' := t.(players := t.players[playerId := p'], accounts := t.accounts[accountId := a']);
        Step(Ok(Moved(p', a')), Logged(t', playerId, Some(accountId), amount, DepositTx, NoMeta, now))
  }

  method Deposit(db: Database, playerId: PlayerId, accountId: AccountId, amount: int, now: nat)
    returns (r: Result<Moved>)
    modifies db
    ensures Step(r, db.Snapshot()) == DepositStep(old(db.Snapshot()), playerId, accountId, amount, now)
  {
    ghost var before := db.Snapshot();
    if playerId !in db.players {
      return Err(PlayerNotFound);
    }
    var player := db.players[playerId];
    if player.cash < amount {
      return Err(NotEnoughCash);
    }
    // The transaction: decrease cash first, then look the account up.
    var savedPlayers := db.players;
    var updatedPlayer := player.(cash := player.cash - amount);
    db.players := db.players[playerId := updatedPlayer];
    if accountId !in db.accounts {
      db.players := savedPlayers;  // rollback
      return Err(BankAccountNotFound);
    }
    var account := db.accounts[accountId];
    var updatedBank := account.(balance := account.balance + amount);
    db.accounts := db.accounts[accountId := updatedBank];
    LogTransaction(db, playerId, Some(accountId), amount, DepositTx, NoMeta, now);
    r := Ok(Moved(updatedPlayer, updatedBank));
    assert Step(r, db.Snapshot()) == DepositStep(before, playerId, accountId, amount, now);
  }

  /** withdraw: bank account -> cash. Only the player's existence is checked
      outside the transaction; the account checks throw inside it. */
  function WithdrawStep(t: Tables, playerId: PlayerId, accountId: AccountId, amount: int, now: nat): (s: Step<Moved>)
    ensures playerId !in t.players ==> s.result == Err(PlayerNotFound)
    ensures playerId in t.players && accountId !in t.accounts ==> s.result == Err(AccountNotFound)
    ensures playerId in t.players && accountId in t.accounts && t.accounts[accountId].balance < amount ==>
              s.result == Err(InsufficientAccountBalance)
    ensures s.result.Ok? <==>
              playerId in t.players && accountId in t.accounts && t.accounts[accountId].balance >= amount
    ensures s.result.Err? ==> s.after == t
    ensures s.result.Ok? ==>
      var p, a := t.players[playerId], t.accounts[accountId];
      var p', a' := p.(cash := p.cash + amount), a.(balance := a.balance - amount);
      && p'.cash + a'.balance == p.cash + a.balance
      && s.result.value == Moved(p', a')
      && s.after == t.(players := t.players[playerId := p'], accounts := t.accounts[accountId := a'],
                       log := t.log + [Entry(|t.log|, playerId, Some(accountId), amount, WithdrawTx, NoMeta, now)])
    ensures t.Valid() ==> s.after.Valid()
    ensures t.NonNegative() && amount >= 0 ==> s.after.NonNegative()
  {
    if playerId !in t.players then Step(Err(PlayerNotFound), t)
    else if accountId !in t.accounts then Step(Err(AccountNotFound), t)
    else
      var p, a := t.players[playerId], t.accounts[accountId];
      if a.balance < amount then Step(Err(InsufficientAccountBalance), t)
      else
        var a', p' := a.(balance := a.balance - amount), p.(cash := p.cash + amount);
        var t' := t.(accounts := t.accounts[accountId := a'], players := t.players[playerId := p']);
        Step(Ok(Moved(p', a')), Logged(t', playerId, Some(accountId), amount, WithdrawTx, NoMeta, now))
  }

  method Withdraw(db: Database, playerId: PlayerId, accountId: AccountId, amount: int, now: nat)
    returns (r: Result<Moved>)
    modifies db
    ensures Step(r, db.Snapshot()) == WithdrawStep(old(db.Snapshot()), playerId, accountId, amount, now)
  {
    ghost var before := db.Snapshot();
    if playerId !in db.players {
      return Err(PlayerNotFound);
    }
    var player := db.players[playerId];
    if accountId !in db.accounts {
      return Err(AccountNotFound);
    }
    var account := db.accounts[accountId];
    if account.balance < amount {
      return Err(InsufficientAccountBalance);
    }
    var updatedBank := account.(balance := account.balance - amount);
    db.accounts := db.accounts[accountId := updatedBank];
    var updatedPlayer := player.(cash := player.cash + amount);
    db.players := db.players[playerId := updatedPlayer];
    LogTransaction(db, playerId, Some(accountId), amount, WithdrawTx, NoMeta, now);
    r := Ok(Moved(updatedPlayer, updatedBank));
    assert Step(r, db.Snapshot()) == WithdrawStep(before, playerId, accountId, amount, now);
  }

  /** transfer: both accounts are read before either is written, so the
      credit is computed from the destination's balance as first read. */
  function TransferStep(t: Tables, fromId: AccountId, toId: AccountId, amount: int, playerId: PlayerId, now: nat)
    : (s: Step<Transferred>)
    ensures fromId !in t.accounts || toId !in t.accounts ==> s.result == Err(AccountsNotFound)
    ensures fromId in t.accounts && toId in t.accounts && t.accounts[fromId].balance < amount ==>
              s.result == Err(InsufficientSourceFunds)
    ensures s.result.Ok? <==>
              fromId in t.accounts && toId in t.accounts && t.accounts[fromId].balance >= amount
    ensures s.result.Err? ==> s.after == t
    ensures s.result.Ok? ==>
      var from, to := t.accounts[fromId], t.accounts[toId];
      var from', to' := from.(balance := from.balance - amount), to.(balance := to.balance + amount);
      && s.result.value == Transferred(from', to')
      && s.after == t.(accounts := t.accounts[fromId := from'][toId := to'],
                       log := t.log + [Entry(|t.log|, playerId, Some(fromId), -amount, TransferTx, To(toId), now)]
                                    + [Entry(|t.log| + 1, playerId, Some(toId), amount, TransferTx, From(fromId), now)])
    ensures s.result.Ok? && fromId != toId ==>
      s.after.accounts[fromId].balance + s.after.accounts[toId].balance ==
      t.accounts[fromId].balance + t.accounts[toId].balance
    ensures s.result.Ok? && fromId == toId ==>
      s.after.accounts[fromId] == t.accounts[fromId].(balance := t.accounts[fromId].balance + amount)
    ensures t.Valid() ==> s.after.Valid()
    ensures t.NonNegative() && amount >= 0 ==> s.after.NonNegative()
  {
    if fromId !in t.accounts || toId !in t.accounts then Step(Err(AccountsNotFound), t)
    else
      var from, to := t.accounts[fromId], t.accounts[toId];
      if from.balance < amount then Step(Err(InsufficientSourceFunds), t)
      else
        var from', to' := from.(balance := from.balance - amount), to.(balance := to.balance + amount);
        var t1 := t.(accounts := t.accounts[fromId := from'][toId := to']);
        var t2 := Logged(t1, playerId, Some(fromId), -amount, TransferTx, To(toId), now);
        Step(Ok(Transferred(from', to')), Logged(t2, playerId, Some(toId), amount, TransferTx, From(fromId), now))
  }

  method Transfer(db: Database, fromId: AccountId, toId: AccountId, amount: int, playerId: PlayerId, now: nat)
    returns (r: Result<Transferred>)
    modifies db
    ensures Step(r, db.Snapshot()) == TransferStep(old(db.Snapshot()), fromId, toId, amount, playerId, now)
  {
    ghost var before := db.Snapshot();
    if fromId !in db.accounts || toId !in db.accounts {
      return Err(AccountsNotFound);
    }
    var fromAccount := db.accounts[fromId];
    var toAccount := db.accounts[toId];
    if fromAccount.balance < amount {
      return Err(InsufficientSourceFunds);
    }
    var updatedFrom := fromAccount.(balance := fromAccount.balance - amount);
    db.accounts := db.accounts[fromId := updatedFrom];
    var updatedTo := toAccount.(balance := toAccount.balance + amount);
    db.accounts := db.accounts[toId := updatedTo];
    LogTransaction(db, playerId, Some(fromId), -amount, TransferTx, To(toId), now);
    LogTransaction(db, playerId, Some(toId), amount, TransferTx, From(fromId), now);
    r := Ok(Transferred(updatedFrom, updatedTo));
    assert Step(r, db.Snapshot()) == TransferStep(before, fromId, toId, amount, playerId, now);
  }

  // ----- Money accounting -----

  /** A deposit only moves money from cash into an account. */
  lemma DepositConservesMoney(t: Tables, playerId: PlayerId, accountId: AccountId, amount: int, now: nat)
    ensures TotalMoney(DepositStep(t, playerId, accountId, amount, now).after) == TotalMoney(t)
  {
    var s := DepositStep(t, playerId, accountId, amount, now);
    if s.result.Ok? {
      SumOfUpdate(t.players, CashOf, playerId, s.after.players[playerId]);
      SumOfUpdate(t.accounts, BalanceOf, accountId, s.after.accounts[accountId]);
    }
  }

  /** A withdrawal only moves money from an account into cash. */
  lemma WithdrawConservesMoney(t: Tables, playerId: PlayerId, accountId: AccountId, amount: int, now: nat)
    ensures TotalMoney(WithdrawStep(t, playerId, accountId, amount, now).after) == TotalMoney(t)
  {
    var s := WithdrawStep(t, playerId, accountId, amount, now);
    if s.result.Ok? {
      SumOfUpdate(t.players, CashOf, playerId, s.after.players[playerId]);
      SumOfUpdate(t.accounts, BalanceOf, accountId, s.after.accounts[accountId]);
    }
  }

  /** Between two different accounts a transfer conserves money; onto the
      same account it creates `amount`, because the credit overwrites the
      debit with a balance read before it. */
  lemma TransferMoney(t: Tables, fromId: AccountId, toId: AccountId, amount: int, playerId: PlayerId, now: nat)
    ensures var s := TransferStep(t, fromId, toId, amount, playerId, now);
      TotalMoney(s.after) == TotalMoney(t) + (if s.result.Ok? && fromId == toId then amount else 0)
  {
    var s := TransferStep(t, fromId, toId, amount, playerId, now);
    if s.result.Ok? {
      var from, to := t.accounts[fromId], t.accounts[toId];
      var m1 := t.accounts[fromId := from.(balance := from.balance - amount)];
      SumOfUpdate(t.accounts, BalanceOf, fromId, from.(balance := from.balance - amount));
      SumOfUpdate(m1, BalanceOf, toId, to.(balance := to.balance + amount));
      assert s.after.accounts == m1[toId := to.(balance := to.balance + amount)];
    }
  }

  /** Depositing and then withdrawing the same amount restores every
      player and account and leaves the two log rows. */
  lemma DepositThenWithdrawRestores(t: Tables, playerId: PlayerId, accountId: AccountId, amount: int, now: nat)
    requires DepositStep(t, playerId, accountId, amount, now).result.Ok?
    requires t.accounts[accountId].balance >= 0
    ensures var s1 := DepositStep(t, playerId, accountId, amount, now);
      var s2 := WithdrawStep(s1.after, playerId, accountId, amount, now);
      && s2.result.Ok?
      && s2.after.players == t.players
      && s2.after.accounts == t.accounts
      && s2.after.log == t.log + [Entry(|t.log|, playerId, Some(accountId), amount, DepositTx, NoMeta, now),
                                  Entry(|t.log| + 1, playerId, Some(accountId), amount, WithdrawTx, NoMeta, now)]
  {
    var s1 := DepositStep(t, playerId, accountId, amount, now);
    var s2 := WithdrawStep(s1.after, playerId, accountId, amount, now);
    assert s2.after.players == t.players;
    assert s2.after.accounts == t.accounts;
  }

  /** A deposit writes only its own player and account: no other row
      changes, and no row is added or removed. */
  lemma DepositTouchesOnlyItsRows(t: Tables, playerId: PlayerId, accountId: AccountId, amount: int, now: nat)
    ensures var d := DepositStep(t, playerId, accountId, amount, now).after;
      && d.players.Keys == t.players.Keys && d.accounts.Keys == t.accounts.Keys
      && (forall q :: q in t.players && q != playerId ==> d.players[q] == t.players[q])
      && (forall b :: b in t.accounts && b != accountId ==> d.accounts[b] == t.accounts[b])
  {
    var s := DepositStep(t, playerId, accountId, amount, now);
  }

  /** A withdrawal writes only its own player and account. */
  lemma WithdrawTouchesOnlyItsRows(t: Tables, playerId: PlayerId, accountId: AccountId, amount: int, now: nat)
    ensures var w := WithdrawStep(t, playerId, accountId, amount, now).after;
      && w.players.Keys == t.players.Keys && w.accounts.Keys == t.accounts.Keys
      && (forall q :: q in t.players && q != playerId ==> w.players[q] == t.players[q])
      && (forall b :: b in t.accounts && b != accountId ==> w.accounts[b] == t.accounts[b])
  {
    var s := WithdrawStep(t, playerId, accountId, amount, now);
  }

  /** A transfer writes only its two accounts and no player. */
  lemma TransferTouchesOnlyItsAccounts(t: Tables, fromId: AccountId, toId: AccountId, amount: int,
                                       playerId: PlayerId, now: nat)
    ensures var x := TransferStep(t, fromId, toId, amount, playerId, now).after;
      && x.players == t.players && x.accounts.Keys == t.accounts.Keys
      && (forall b :: b in t.accounts && b != fromId && b != toId ==> x.accounts[b] == t.accounts[b])
  {
    var s := TransferStep(t, fromId, toId, amount, playerId, now);
  }

  /** None of the three moves writes the players' `bank` column, which
      therefore drifts from the accounts' balances; deposit and withdraw
      accept an account of either type. */
  lemma MovesLeaveBankColumn(t: Tables, playerId: PlayerId, accountId: AccountId, fromId: AccountId,
                             toId: AccountId, amount: int, now: nat, q: PlayerId)
    requires q in t.players
    ensures var d := DepositStep(t, playerId, accountId, amount, now).after;
      q in d.players && d.players[q].bank == t.players[q].bank
    ensures var w := WithdrawStep(t, playerId, accountId, amount, now).after;
      q in w.players && w.players[q].bank == t.players[q].bank
    ensures TransferStep(t, fromId, toId, amount, playerId, now).after.players == t.players
    ensures accountId in t.accounts && t.accounts[accountId].kind == Business && playerId in t.players ==>
      && (t.players[playerId].cash >= amount ==> DepositStep(t, playerId, accountId, amount, now).result.Ok?)
      && (t.accounts[accountId].balance >= amount ==> WithdrawStep(t, playerId, accountId, amount, now).result.Ok?)
  {
  }

  /** No check that the amount is positive: depositing a negative amount
      into an empty account of a player with no cash succeeds and leaves the
      account overdrawn. */
  lemma NegativeDepositOverdraws(now: nat)
    ensures var t := Empty.(players := map["p" := Player("p", 1, 0, 0)],
                            accounts := map[0 := Account(0, "p", Business, Chequing, 0, 0, true)],
                            nextAccountId := 1);
      && t.Valid() && t.NonNegative()
      && var s := DepositStep(t, "p", 0, -5, now);
      && s.result.Ok?
      && s.after.accounts[0].balance == -5
      && !s.after.NonNegative()
  {
  }
}
