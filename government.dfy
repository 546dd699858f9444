/**
 * The government: versioned economic policy (each update inserts a row, the
 * row with the largest id is current), the treasury account lookup, and the
 * bootstrap that creates the government player, treasury and record once.
 */
module Government {
  import opened Schema
  import opened Accounting

  /** getCurrentPolicy: the row with the largest id (`order by id desc limit 1`). */
  function CurrentPolicy(policies: seq<Policy>): (r: Result<Policy>)
    ensures r.Err? <==> policies == []
    ensures r.Err? ==> r.error == NoPolicyFound
    ensures r.Ok? ==> r.value in policies && forall q :: q in policies ==> q.id <= r.value.id
  {
    if policies == [] then Err(NoPolicyFound)
    else
      var rest := CurrentPolicy(policies[1..]);
      if rest.Err? || rest.value.id <= policies[0].id then Ok(policies[0]) else rest
  }

  /** With serial ids the current policy is the last one inserted. */
  lemma CurrentIsLast(policies: seq<Policy>)
    requires PolicyIdsIncrease(policies)
    requires policies != []
    ensures CurrentPolicy(policies) == Ok(policies[|policies| - 1])
  {
    var r := CurrentPolicy(policies);
    var last := |policies| - 1;
    var k :| 0 <= k < |policies| && policies[k] == r.value;
    assert policies[last] in policies;
  }

  /** One field of a partial insert: left out (the column default applies),
      an explicit null, or a value. */
  datatype Field<T> = Absent | Null | Given(v: T)

  /** The value an insert stores for one field: the column default when the
      field is left out, null when it is null, the value when given. */
  function Column<T>(f: Field<T>, default: T): (r: Option<T>)
    ensures r.None? <==> f.Null?
    ensures f.Absent? ==> r == Some(default)
    ensures f.Given? ==> r == Some(f.v)
  {
    match f
    case Absent => Some(default)
    case Null => None
    case Given(v) => Some(v)
  }

  datatype PolicyUpdate = PolicyUpdate(
    savingsAPR: Field<int>,
    incomeTaxRate: Field<int>,
    salesTaxRate: Field<int>,
    businessTaxRate: Field<int>,
    investingLockupMonths: Field<int>,
    isInvestingEnabled: Field<bool>)

  /** updatePolicy: insert the update as a new row. Fields the update leaves
      out take the column defaults, not the values of the current policy. */
  function UpdatePolicyStep(t: Tables, u: PolicyUpdate): (s: Step<Policy>)
    ensures s.result.Ok?
    ensures s.result.value.id == t.nextPolicyId
    ensures s.after == t.(policies := t.policies + [s.result.value], nextPolicyId := t.nextPolicyId + 1)
    ensures var p := s.result.value;
      && (u.savingsAPR.Absent? ==> p.savingsAPR == Some(2))
      && (u.incomeTaxRate.Absent? ==> p.incomeTaxRate == Some(10))
      && (u.salesTaxRate.Absent? ==> p.salesTaxRate == Some(8))
      && (u.businessTaxRate.Absent? ==> p.businessTaxRate == Some(15))
      && (u.investingLockupMonths.Absent? ==> p.investingLockupMonths == Some(12))
      && (u.isInvestingEnabled.Absent? ==> p.isInvestingEnabled == Some(false))
    ensures var p := s.result.value;
      && (u.savingsAPR.Null? ==> p.savingsAPR.None?)
      && (u.incomeTaxRate.Null? ==> p.incomeTaxRate.None?)
      && (u.salesTaxRate.Null? ==> p.salesTaxRate.None?)
      && (u.businessTaxRate.Null? ==> p.businessTaxRate.None?)
      && (u.investingLockupMonths.Null? ==> p.investingLockupMonths.None?)
      && (u.isInvestingEnabled.Null? ==> p.isInvestingEnabled.None?)
    ensures var p := s.result.value;
      && (u.savingsAPR.Given? ==> p.savingsAPR == Some(u.savingsAPR.v))
      && (u.incomeTaxRate.Given? ==> p.incomeTaxRate == Some(u.incomeTaxRate.v))
      && (u.salesTaxRate.Given? ==> p.salesTaxRate == Some(u.salesTaxRate.v))
      && (u.businessTaxRate.Given? ==> p.businessTaxRate == Some(u.businessTaxRate.v))
      && (u.investingLockupMonths.Given? ==> p.investingLockupMonths == Some(u.investingLockupMonths.v))
      && (u.isInvestingEnabled.Given? ==> p.isInvestingEnabled == Some(u.isInvestingEnabled.v))
    ensures t.Valid() ==> s.after.Valid()
  {
    var p := Policy(
      t.nextPolicyId,
      Column(u.savingsAPR, DefaultSavingsAPR),
      Column(u.incomeTaxRate, DefaultIncomeTaxRate),
      Column(u.salesTaxRate, DefaultSalesTaxRate),
      Column(u.businessTaxRate, DefaultBusinessTaxRate),
      Column(u.investingLockupMonths, DefaultInvestingLockupMonths),
      Column(u.isInvestingEnabled, DefaultIsInvestingEnabled));
    Step(Ok(p), t.(policies := t.policies + [p], nextPolicyId := t.nextPolicyId + 1))
  }

  method UpdatePolicy(db: Database, u: PolicyUpdate) returns (r: Result<Policy>)
    modifies db
    ensures Step(r, db.Snapshot()) == UpdatePolicyStep(old(db.Snapshot()), u)
  {
    var newPolicy := Policy(
      db.nextPolicyId,
      Column(u.savingsAPR, DefaultSavingsAPR),
      Column(u.incomeTaxRate, DefaultIncomeTaxRate),
      Column(u.salesTaxRate, DefaultSalesTaxRate),
      Column(u.businessTaxRate, DefaultBusinessTaxRate),
      Column(u.investingLockupMonths, DefaultInvestingLockupMonths),
      Column(u.isInvestingEnabled, DefaultIsInvestingEnabled));
    db.policies := db.policies + [newPolicy];
    db.nextPolicyId := db.nextPolicyId + 1;
    return Ok(newPolicy);
  }

  /** After an update the new row is the current policy and every earlier
      row is still there, unchanged. */
  lemma UpdatedPolicyIsCurrent(t: Tables, u: PolicyUpdate)
    requires t.Valid()
    ensures var s := UpdatePolicyStep(t, u);
      && CurrentPolicy(s.after.policies) == s.result
      && |s.after.policies| == |t.policies| + 1
      && (forall i :: 0 <= i < |t.policies| ==> s.after.policies[i] == t.policies[i])
  {
    var s := UpdatePolicyStep(t, u);
    CurrentIsLast(s.after.policies);
  }

  /** A lever the update leaves out is reset to its default, whatever the
      current policy held before. */
  lemma OmittedLeverResetsToDefault(t: Tables, u: PolicyUpdate)
    requires t.Valid()
    requires u.savingsAPR.Absent? && u.incomeTaxRate.Absent?
    ensures var current := CurrentPolicy(UpdatePolicyStep(t, u).after.policies);
      && current.Ok?
      && current.value.savingsAPR == Some(DefaultSavingsAPR)
      && current.value.incomeTaxRate == Some(DefaultIncomeTaxRate)
  {
    UpdatedPolicyIsCurrent(t, u);
  }

  /** getGovernmentAccount: the account the government row points at. */
  function GetGovernmentAccount(t: Tables): (r: Result<Account>)
    ensures t.government.None? ==> r == Err(GovernmentEntityNotFound)
    ensures t.government.Some? && (t.government.value.accountId.None? || t.government.value.accountId.value !in t.accounts) ==>
              r == Err(GovernmentAccountMissing)
    ensures r.Ok? ==> t.government.Some? && t.government.value.accountId.Some? &&
                      r.value == t.accounts[t.government.value.accountId.value]
    ensures t.Valid() && t.government.Some? && t.government.value.accountId.Some? ==> r.Ok?
  {
    match t.government
    case None => Err(GovernmentEntityNotFound)
    case Some(gov) =>
      if gov.accountId.Some? && gov.accountId.value in t.accounts then Ok(t.accounts[gov.accountId.value])
      else Err(GovernmentAccountMissing)
  }

  /** The fixed player id of the government entity. */
  const GovernmentPlayerId: PlayerId := "00000000-0000-0000-0000-000000000001"
  const TreasurySeed: int := 1000000

  /** ensureGovernmentAccount: when there is no government row, insert the
      government player, its business chequing treasury and the row. The
      player insert throws when the fixed id is already taken. */
  function EnsureGovernmentAccountStep(t: Tables): (s: Step<Government>)
    ensures t.government.Some? ==> s == Step(Ok(t.government.value), t)
    ensures t.government.None? && GovernmentPlayerId in t.players ==> s == Step(Err(DuplicatePlayer), t)
    ensures t.government.None? && GovernmentPlayerId !in t.players ==>
              s.result == Ok(Government(Some("Los Santos Government"), Some(t.nextAccountId)))
    ensures t.government.None? && GovernmentPlayerId !in t.players ==>
      var id := t.nextAccountId;
      && s.after.players == t.players[GovernmentPlayerId := Player(GovernmentPlayerId, 0, 0, 0)]
      && s.after.accounts == t.accounts[id := Account(id, GovernmentPlayerId, Business, Chequing, 1000000, 0, true)]
      && s.after.government == Some(s.result.value)
      && s.after == t.(players := s.after.players, accounts := s.after.accounts, government := s.after.government,
                       nextAccountId := id + 1)
    ensures t.Valid() ==> s.after.Valid()
  {
    if t.government.Some? then Step(Ok(t.government.value), t)
    else
      var inserted := InsertPlayerStep(t, GovernmentPlayerId, 0, Some(0), Some(0));
      if inserted.result.Err? then Step(Err(inserted.result.error), t)
      else
        var t1 := inserted.after;
        var account := Account(t1.nextAccountId, inserted.result.value.playerId, Business, Chequing, TreasurySeed,
                               DefaultApr, true);
        var gov := Government(Some(DefaultGovernmentName), Some(account.id));
        Step(Ok(gov), t1.(accounts := t1.accounts[account.id := account],
                          government := Some(gov),
                          nextAccountId := t1.nextAccountId + 1))
  }

  method EnsureGovernmentAccount(db: Database) returns (r: Result<Government>)
    modifies db
    ensures Step(r, db.Snapshot()) == EnsureGovernmentAccountStep(old(db.Snapshot()))
  {
    var gov := db.government;
    if gov.None? {
      var inserted := InsertPlayer(db, GovernmentPlayerId, 0, Some(0), Some(0));
      if inserted.Err? {
        return Err(inserted.error);
      }
      var govPlayer := inserted.value;
      var account := Account(db.nextAccountId, govPlayer.playerId, Business, Chequing, TreasurySeed, DefaultApr, true);
      db.accounts := db.accounts[account.id := account];
      db.nextAccountId := db.nextAccountId + 1;
      gov := Some(Government(Some(DefaultGovernmentName), Some(account.id)));
      db.government := gov;
    }
    return Ok(gov.value);
  }

  /** Bootstrapping twice is bootstrapping once. */
  lemma EnsureGovernmentAccountIdempotent(t: Tables)
    ensures var s1 := EnsureGovernmentAccountStep(t);
      var s2 := EnsureGovernmentAccountStep(s1.after);
      s1.result.Ok? ==> s2 == Step(s1.result, s1.after)
  {
  }

  /** The bootstrap seeds the economy with the treasury's million and
      nothing else. */
  lemma EnsureGovernmentAccountSeedsTreasury(t: Tables)
    requires t.Valid()
    ensures var s := EnsureGovernmentAccountStep(t);
      TotalMoney(s.after) == TotalMoney(t) + (if t.government.None? && s.result.Ok? then TreasurySeed else 0)
  {
    var s := EnsureGovernmentAccountStep(t);
    if t.government.None? && s.result.Ok? {
      var id := t.nextAccountId;
      SumOfInsert(t.players, CashOf, GovernmentPlayerId, Player(GovernmentPlayerId, 0, 0, 0));
      SumOfInsert(t.accounts, BalanceOf, id, Account(id, GovernmentPlayerId, Business, Chequing, TreasurySeed, 0, true));
    }
  }

  /** Once bootstrapped from an empty government table, the treasury is
      found and holds the seed. */
  lemma BootstrappedTreasuryIsFound(t: Tables)
    requires t.Valid()
    requires t.government.None? && GovernmentPlayerId !in t.players
    ensures var s := EnsureGovernmentAccountStep(t);
      var treasury := GetGovernmentAccount(s.after);
      && treasury.Ok?
      && treasury.value.balance == TreasurySeed
      && treasury.value.ownerId == GovernmentPlayerId
      && treasury.value.kind == Business && treasury.value.subType == Chequing
  {
  }
}
