/**
 * Bank accounts: provisioning the chequing/savings/investing trio for an
 * owner from a government policy row, the guarded balance update, and the
 * lookups by owner and by id.
 */
module Bank {
  import opened Schema
  import opened Accounting

  /** One entry of `accountsToCreate`. */
  datatype AccountDef = AccountDef(subType: SubType, apr: int, isActive: bool)

  /** The three accounts to create, in order, with the levers of `policy`
      (a null lever reads as 0 or false). */
  function ProvisionPlan(policy: Policy): (r: seq<AccountDef>)
    ensures |r| == 3
    ensures r[0].subType == Chequing && r[1].subType == Savings && r[2].subType == Investing
    ensures r[0].apr == 0 && r[2].apr == 0
    ensures policy.savingsAPR.Some? ==> r[1].apr == policy.savingsAPR.value
    ensures policy.savingsAPR.None? ==> r[1].apr == 0
    ensures r[0].isActive && r[1].isActive
    ensures r[2].isActive <==> policy.isInvestingEnabled == Some(true)
  {
    [ AccountDef(Chequing, 0, true),
      AccountDef(Savings, policy.savingsAPR.GetOr(0), true),
      AccountDef(Investing, 0, policy.isInvestingEnabled.GetOr(false)) ]
  }

  function NewAccount(id: AccountId, owner: PlayerId, kind: AccountType, def: AccountDef): Account {
    Account(id, owner, kind, def.subType, 0, def.apr, def.isActive)
  }

  /** Inserting one row per definition, in order, with ids drawn from `next`
      on; returns the table and the rows in insertion order. */
  function InsertAccounts(accounts: map<AccountId, Account>, next: nat, owner: PlayerId, kind: AccountType,
                          defs: seq<AccountDef>): (r: (map<AccountId, Account>, seq<Account>))
    requires forall a :: a in accounts ==> a < next
    ensures |r.1| == |defs|
  {
    if defs == [] then (accounts, [])
    else
      var prev := InsertAccounts(accounts, next, owner, kind, defs[..|defs| - 1]);
      var account := NewAccount(next + |defs| - 1, owner, kind, defs[|defs| - 1]);
      (prev.0[account.id := account], prev.1 + [account])
  }

  /** Inserting appends the rows in order, numbered from `next`, and leaves
      every earlier row as it was. */
  lemma {:induction false} InsertAccountsAppends(accounts: map<AccountId, Account>, next: nat, owner: PlayerId,
                                                 kind: AccountType, defs: seq<AccountDef>)
    requires forall a :: a in accounts ==> a < next
    ensures var r := InsertAccounts(accounts, next, owner, kind, defs);
      && (forall i :: 0 <= i < |defs| ==> r.1[i] == NewAccount(next + i, owner, kind, defs[i]))
      && (forall a :: a in r.0 <==> a in accounts || next <= a < next + |defs|)
      && (forall a :: a in accounts ==> r.0[a] == accounts[a])
      && (forall i :: 0 <= i < |defs| ==> r.0[next + i] == r.1[i])
  {
    if defs != [] {
      var init, last := defs[..|defs| - 1], defs[|defs| - 1];
      InsertAccountsAppends(accounts, next, owner, kind, init);
      assert defs == init + [last];
      InsertOneMore(accounts, next, owner, kind, init, last);
    }
  }

  /** The policy row createBankAccount reads: `select ... limit 1` with no
      ordering, taken here as the first row stored (the oldest). */
  function FirstPolicyRow(policies: seq<Policy>): (r: Option<Policy>)
    ensures r.None? <==> policies == []
    ensures r.Some? ==> r.value in policies
    ensures r.Some? && PolicyIdsIncrease(policies) ==> forall p :: p in policies ==> r.value.id <= p.id
  {
    if policies == [] then None else Some(policies[0])
  }

  /** Every account id is below the counter, so the next ids are free. */
  ghost predicate IdsBelowCounter(t: Tables) {
    forall a :: a in t.accounts ==> a < t.nextAccountId
  }

  /** createBankAccount; the account type is personal when not given.
      No transaction: each account is its own insert.
      A business owner is not looked up, but the owner_id foreign key
      rejects the first insert when the owner is not a player, so nothing is
      created then either. */
  function CreateBankAccountStep(t: Tables, ownerId: Option<PlayerId>, kind: Option<AccountType>): (s: Step<seq<Account>>)
    requires IdsBelowCounter(t)
    ensures ownerId.None? ==> s.result == Err(OwnerIdRequired)
    ensures ownerId.Some? && kind.GetOr(Personal) == Personal && ownerId.value !in t.players ==> s.result == Err(OwnerNotFound)
    ensures ownerId.Some? && (kind == Some(Business) || ownerId.value in t.players) && t.policies == [] ==>
              s.result == Err(PolicyMissing)
    ensures ownerId.Some? && kind == Some(Business) && ownerId.value !in t.players && t.policies != [] ==>
              s.result == Err(AccountCreationFailed)
    ensures s.result.Ok? <==> ownerId.Some? && ownerId.value in t.players && t.policies != []
    ensures s.result.Err? ==> s.after == t
    ensures s.result.Ok? ==>
      var created, next := s.result.value, t.nextAccountId;
      && |created| == 3
      && s.after == t.(accounts := t.accounts[next := created[0]][next + 1 := created[1]][next + 2 := created[2]],
                       nextAccountId := next + 3)
  {
    if ownerId.None? then Step(Err(OwnerIdRequired), t)
    else if kind.GetOr(Personal) == Personal && ownerId.value !in t.players then Step(Err(OwnerNotFound), t)
    else match FirstPolicyRow(t.policies)
      case None => Step(Err(PolicyMissing), t)
      case Some(policy) =>
        if ownerId.value !in t.players then Step(Err(AccountCreationFailed), t)
        else
          var plan, next := ProvisionPlan(policy), t.nextAccountId;
          var inserted := InsertAccounts(t.accounts, next, ownerId.value, kind.GetOr(Personal), plan);
          InsertThree(t.accounts, next, ownerId.value, kind.GetOr(Personal), plan);
          Step(Ok(inserted.1), t.(accounts := inserted.0, nextAccountId := next + 3))
  }

  /** Three rows for a known owner, numbered by the counter, keep the
      tables well formed. */
  lemma AddThreeKeepsValid(t: Tables, c0: Account, c1: Account, c2: Account)
    requires t.Valid()
    requires c0.id == t.nextAccountId && c1.id == c0.id + 1 && c2.id == c1.id + 1
    requires c0.ownerId in t.players && c1.ownerId in t.players && c2.ownerId in t.players
    ensures t.(accounts := t.accounts[c0.id := c0][c1.id := c1][c2.id := c2], nextAccountId := c2.id + 1).Valid()
  {
    var t1 := t.(accounts := t.accounts[c0.id := c0], nextAccountId := c1.id);
    assert t1.Valid();
    var t2 := t1.(accounts := t1.accounts[c1.id := c1], nextAccountId := c2.id);
    assert t2.Valid();
  }

  /** Provisioning keeps the tables well formed: the new rows take the next
      three ids and belong to an existing player. */
  lemma CreateBankAccountKeepsValid(t: Tables, ownerId: Option<PlayerId>, kind: Option<AccountType>)
    requires t.Valid()
    ensures CreateBankAccountStep(t, ownerId, kind).after.Valid()
  {
    var s := CreateBankAccountStep(t, ownerId, kind);
    if s.result.Ok? {
      var c := s.result.value;
      ProvisionedAccounts(t, ownerId.value, kind);
      AddThreeKeepsValid(t, c[0], c[1], c[2]);
    }
  }

  /** One more definition adds one more row, with the next id. */
  lemma InsertOneMore(accounts: map<AccountId, Account>, next: nat, owner: PlayerId, kind: AccountType,
                      defs: seq<AccountDef>, def: AccountDef)
    requires forall a :: a in accounts ==> a < next
    ensures var prev, account := InsertAccounts(accounts, next, owner, kind, defs), NewAccount(next + |defs|, owner, kind, def);
      InsertAccounts(accounts, next, owner, kind, defs + [def]) == (prev.0[next + |defs| := account], prev.1 + [account])
  {
    assert (defs + [def])[..|defs|] == defs;
  }

  /** Two inserts, in closed form. */
  lemma InsertTwo(accounts: map<AccountId, Account>, next: nat, owner: PlayerId, kind: AccountType,
                  d0: AccountDef, d1: AccountDef)
    requires forall a :: a in accounts ==> a < next
    ensures var n0, n1 := NewAccount(next, owner, kind, d0), NewAccount(next + 1, owner, kind, d1);
      InsertAccounts(accounts, next, owner, kind, [d0, d1]) == (accounts[next := n0][next + 1 := n1], [n0, n1])
  {
    var n0, n1 := NewAccount(next, owner, kind, d0), NewAccount(next + 1, owner, kind, d1);
    assert InsertAccounts(accounts, next, owner, kind, []) == (accounts, []);
    InsertOneMore(accounts, next, owner, kind, [], d0);
    assert [] + [d0] == [d0] && [] + [n0] == [n0];
    InsertOneMore(accounts, next, owner, kind, [d0], d1);
    assert [d0] + [d1] == [d0, d1] && [n0] + [n1] == [n0, n1];
  }

  /** Three inserts, in closed form. */
  lemma InsertThree(accounts: map<AccountId, Account>, next: nat, owner: PlayerId, kind: AccountType,
                    defs: seq<AccountDef>)
    requires forall a :: a in accounts ==> a < next
    requires |defs| == 3
    ensures var n0, n1, n2 := NewAccount(next, owner, kind, defs[0]), NewAccount(next + 1, owner, kind, defs[1]),
                              NewAccount(next + 2, owner, kind, defs[2]);
      InsertAccounts(accounts, next, owner, kind, defs) == (accounts[next := n0][next + 1 := n1][next + 2 := n2], [n0, n1, n2])
  {
    var n0, n1, n2 := NewAccount(next, owner, kind, defs[0]), NewAccount(next + 1, owner, kind, defs[1]),
                      NewAccount(next + 2, owner, kind, defs[2]);
    InsertTwo(accounts, next, owner, kind, defs[0], defs[1]);
    InsertOneMore(accounts, next, owner, kind, [defs[0], defs[1]], defs[2]);
    assert [defs[0], defs[1]] + [defs[2]] == defs && [n0, n1] + [n2] == [n0, n1, n2];
  }

  /** A successful provisioning creates exactly three fresh accounts, in the
      order chequing, savings, investing, for the given owner and type, all
      empty, with the savings rate and the investing switch of the first
      policy row. */
  lemma ProvisionedAccounts(t: Tables, owner: PlayerId, kind: Option<AccountType>)
    requires IdsBelowCounter(t)
    requires CreateBankAccountStep(t, Some(owner), kind).result.Ok?
    ensures var s := CreateBankAccountStep(t, Some(owner), kind);
      var created, policy, next := s.result.value, t.policies[0], t.nextAccountId;
      var ty := kind.GetOr(Personal);
      && created == [Account(next, owner, ty, Chequing, 0, 0, true),
                     Account(next + 1, owner, ty, Savings, 0, policy.savingsAPR.GetOr(0), true),
                     Account(next + 2, owner, ty, Investing, 0, 0, policy.isInvestingEnabled.GetOr(false))]
      && next !in t.accounts && next + 1 !in t.accounts && next + 2 !in t.accounts
  {
    InsertThree(t.accounts, t.nextAccountId, owner, kind.GetOr(Personal), ProvisionPlan(t.policies[0]));
  }

  method CreateBankAccount(db: Database, ownerId: Option<PlayerId>, kind: Option<AccountType>)
    returns (r: Result<seq<Account>>)
    requires IdsBelowCounter(db.Snapshot())
    modifies db
    ensures Step(r, db.Snapshot()) == CreateBankAccountStep(old(db.Snapshot()), ownerId, kind)
  {
    if ownerId.None? {
      return Err(OwnerIdRequired);
    }
    var owner := ownerId.value;
    var accountType := kind.GetOr(Personal);
    if accountType == Personal && owner !in db.players {
      return Err(OwnerNotFound);
    }
    if db.policies == [] {
      return Err(PolicyMissing);
    }
    if owner !in db.players {
      return Err(AccountCreationFailed);
    }
    var accountsToCreate := ProvisionPlan(db.policies[0]);
    var createdAccounts := InsertEach(db, owner, accountType, accountsToCreate);
    r := Ok(createdAccounts);
    assert Step(r, db.Snapshot()) == CreateBankAccountStep(old(db.Snapshot()), ownerId, kind);
  }

  /** The insert loop of createBankAccount: one row per definition, each
      pushed onto the list of created accounts. */
  method InsertEach(db: Database, owner: PlayerId, kind: AccountType, accountsToCreate: seq<AccountDef>)
    returns (createdAccounts: seq<Account>)
    requires forall a :: a in db.accounts ==> a < db.nextAccountId
    modifies db
    ensures (db.accounts, createdAccounts) ==
            InsertAccounts(old(db.accounts), old(db.nextAccountId), owner, kind, accountsToCreate)
    ensures db.Snapshot() ==
            old(db.Snapshot()).(accounts := db.accounts, nextAccountId := old(db.nextAccountId) + |accountsToCreate|)
  {
    createdAccounts := [];
    for i := 0 to |accountsToCreate|
      invariant db.nextAccountId == old(db.nextAccountId) + i
      invariant (db.accounts, createdAccounts) ==
                InsertAccounts(old(db.accounts), old(db.nextAccountId), owner, kind, accountsToCreate[..i])
      invariant db.Snapshot() == old(db.Snapshot()).(accounts := db.accounts, nextAccountId := db.nextAccountId)
    {
      var account := NewAccount(db.nextAccountId, owner, kind, accountsToCreate[i]);
      db.accounts := db.accounts[account.id := account];
      db.nextAccountId := db.nextAccountId + 1;
      createdAccounts := createdAccounts + [account];
      assert accountsToCreate[..i + 1][..i] == accountsToCreate[..i];
    }
    assert accountsToCreate[..|accountsToCreate|] == accountsToCreate;
  }

  /** updateBalance: add `delta` unless that would take the balance below 0. */
  function UpdateBalanceStep(t: Tables, accountId: AccountId, delta: int): (s: Step<Account>)
    ensures accountId !in t.accounts ==> s.result == Err(AccountNotFound)
    ensures accountId in t.accounts && t.accounts[accountId].balance + delta < 0 ==> s.result == Err(InsufficientFunds)
    ensures s.result.Ok? <==> accountId in t.accounts && t.accounts[accountId].balance + delta >= 0
    ensures s.result.Err? ==> s.after == t
    ensures s.result.Ok? ==>
      && s.result.value == t.accounts[accountId].(balance := t.accounts[accountId].balance + delta)
      && s.result.value.balance >= 0
      && s.after == t.(accounts := t.accounts[accountId := s.result.value])
    ensures t.Valid() ==> s.after.Valid()
    ensures t.NonNegative() ==> s.after.NonNegative()
  {
    if accountId !in t.accounts then Step(Err(AccountNotFound), t)
    else
      var account := t.accounts[accountId];
      if account.balance + delta < 0 then Step(Err(InsufficientFunds), t)
      else
        var updated := account.(balance := account.balance + delta);
        Step(Ok(updated), t.(accounts := t.accounts[accountId := updated]))
  }

  method UpdateBalance(db: Database, accountId: AccountId, delta: int) returns (r: Result<Account>)
    modifies db
    ensures Step(r, db.Snapshot()) == UpdateBalanceStep(old(db.Snapshot()), accountId, delta)
  {
    if accountId !in db.accounts {
      return Err(AccountNotFound);
    }
    var account := db.accounts[accountId];
    if account.balance + delta < 0 {
      return Err(InsufficientFunds);
    }
    var updated := account.(balance := account.balance + delta);
    db.accounts := db.accounts[accountId := updated];
    return Ok(updated);
  }

  /** getAccountsByOwner: the accounts whose owner is `ownerId`, by id. */
  function AccountsByOwner(accounts: map<AccountId, Account>, ownerId: PlayerId): (r: map<AccountId, Account>)
    ensures forall a :: a in r <==> a in accounts && accounts[a].ownerId == ownerId
    ensures forall a :: a in r ==> r[a] == accounts[a]
  {
    map a | a in accounts && accounts[a].ownerId == ownerId :: accounts[a]
  }

  /** getAccountById. */
  function AccountById(accounts: map<AccountId, Account>, accountId: AccountId): (r: Result<Account>)
    ensures r.Err? <==> accountId !in accounts
    ensures r.Err? ==> r.error == AccountNotFound
    ensures r.Ok? ==> r.value == accounts[accountId]
  {
    if accountId in accounts then Ok(accounts[accountId]) else Err(AccountNotFound)
  }

  // ----- Properties across operations -----

  /** Provisioning creates no money: the new accounts hold nothing. */
  lemma CreateBankAccountConservesMoney(t: Tables, ownerId: Option<PlayerId>, kind: Option<AccountType>)
    requires IdsBelowCounter(t)
    ensures TotalMoney(CreateBankAccountStep(t, ownerId, kind).after) == TotalMoney(t)
  {
    var s := CreateBankAccountStep(t, ownerId, kind);
    if s.result.Ok? {
      var c, next := s.result.value, t.nextAccountId;
      var m1 := t.accounts[next := c[0]];
      var m2 := m1[next + 1 := c[1]];
      ProvisionedAccounts(t, ownerId.value, kind);
      SumOfInsert(t.accounts, BalanceOf, next, c[0]);
      SumOfInsert(m1, BalanceOf, next + 1, c[1]);
      SumOfInsert(m2, BalanceOf, next + 2, c[2]);
    }
  }

  /** A fresh row joins its owner's accounts and no one else's. */
  lemma AccountsByOwnerAdd(accounts: map<AccountId, Account>, id: AccountId, a: Account, owner: PlayerId)
    ensures a.ownerId == owner ==> AccountsByOwner(accounts[id := a], owner) == AccountsByOwner(accounts, owner)[id := a]
    ensures a.ownerId != owner && id !in accounts ==>
              AccountsByOwner(accounts[id := a], owner) == AccountsByOwner(accounts, owner)
  {
  }

  /** After provisioning, the owner's accounts are the earlier ones plus
      exactly the three just created, under their new ids. */
  lemma ProvisionedAccountsBelongToOwner(t: Tables, owner: PlayerId, kind: Option<AccountType>)
    requires IdsBelowCounter(t)
    requires CreateBankAccountStep(t, Some(owner), kind).result.Ok?
    ensures var s := CreateBankAccountStep(t, Some(owner), kind);
      var c, next := s.result.value, t.nextAccountId;
      AccountsByOwner(s.after.accounts, owner) ==
        AccountsByOwner(t.accounts, owner)[next := c[0]][next + 1 := c[1]][next + 2 := c[2]]
  {
    var s := CreateBankAccountStep(t, Some(owner), kind);
    var c, next := s.result.value, t.nextAccountId;
    ProvisionedAccounts(t, owner, kind);
    var m1 := t.accounts[next := c[0]];
    var m2 := m1[next + 1 := c[1]];
    AccountsByOwnerAdd(t.accounts, next, c[0], owner);
    AccountsByOwnerAdd(m1, next + 1, c[1], owner);
    AccountsByOwnerAdd(m2, next + 2, c[2], owner);
  }

  /** Provisioning for one owner gives no other owner an account. */
  lemma ProvisioningLeavesOtherOwners(t: Tables, owner: PlayerId, kind: Option<AccountType>, other: PlayerId)
    requires IdsBelowCounter(t)
    requires other != owner
    ensures var s := CreateBankAccountStep(t, Some(owner), kind);
      AccountsByOwner(s.after.accounts, other) == AccountsByOwner(t.accounts, other)
  {
    var s := CreateBankAccountStep(t, Some(owner), kind);
    if s.result.Ok? {
      var c, next := s.result.value, t.nextAccountId;
      ProvisionedAccounts(t, owner, kind);
      var m1 := t.accounts[next := c[0]];
      var m2 := m1[next + 1 := c[1]];
      AccountsByOwnerAdd(t.accounts, next, c[0], other);
      AccountsByOwnerAdd(m1, next + 1, c[1], other);
      AccountsByOwnerAdd(m2, next + 2, c[2], other);
    }
  }

  /** updateBalance moves the total by exactly `delta` when it succeeds. */
  lemma UpdateBalanceMovesMoneyByDelta(t: Tables, accountId: AccountId, delta: int)
    ensures var s := UpdateBalanceStep(t, accountId, delta);
      TotalMoney(s.after) == TotalMoney(t) + (if s.result.Ok? then delta else 0)
  {
    var s := UpdateBalanceStep(t, accountId, delta);
    if s.result.Ok? {
      SumOfUpdate(t.accounts, BalanceOf, accountId, s.result.value);
    }
  }
}
