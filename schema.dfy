/**
 * The tables of the economy database: players, jobs, transactions, bank
 * accounts, governments and government policies, with their column defaults,
 * the whole database as one value (`Tables`) and as a mutable object
 * (`Database`) that the service modules update in place.
 */
module Schema {

  type PlayerId = string
  type AccountId = nat
  type JobId = int

  datatype Option<+T> = None | Some(value: T) {
    /** The SQL/JavaScript `x ?? d`: the value when present, `d` otherwise. */
    function GetOr(d: T): T {
      match this
      case Some(v) => v
      case None => d
    }
  }

  /** One tag per failure message of the services. */
  datatype Error =
    | PlayerNotFound
    | NotEnoughCash
    | BankAccountNotFound
    | AccountNotFound
    | InsufficientAccountBalance
    | AccountsNotFound
    | InsufficientSourceFunds
    | InsufficientFunds
    | OwnerIdRequired
    | OwnerNotFound
    | PolicyMissing
    | AccountCreationFailed
    | JobNotFound
    | PolicyNotFound
    | TreasuryNotFound
    | ChequingNotFound
    | GovernmentAccountNotFound
    | NoPolicyFound
    | GovernmentEntityNotFound
    | GovernmentAccountMissing
    | TransactionNotFound
    | DuplicatePlayer

  datatype Result<+T> = Ok(value: T) | Err(error: Error)

  datatype AccountType = Personal | Business
  datatype SubType = Chequing | Savings | Investing
  datatype TxType = DepositTx | WithdrawTx | TransferTx

  /** The json `metadata` column of a log row: absent, an account reference
      written as "to:<id>" / "from:<id>", or a fixed note such as "paycheck". */
  datatype Meta = NoMeta | To(account: AccountId) | From(account: AccountId) | Note(text: string)

  datatype Player = Player(playerId: PlayerId, jobId: JobId, cash: int, bank: int)
  datatype Job = Job(id: JobId, name: string, salary: int)
  datatype Account = Account(
    id: AccountId,
    ownerId: PlayerId,
    kind: AccountType,
    subType: SubType,
    balance: int,
    apr: int,
    isActive: bool)
  datatype Government = Government(name: Option<string>, accountId: Option<AccountId>)
  /** Every lever column is nullable; a row stores None for an explicit null. */
  datatype Policy = Policy(
    id: nat,
    savingsAPR: Option<int>,
    incomeTaxRate: Option<int>,
    salesTaxRate: Option<int>,
    businessTaxRate: Option<int>,
    investingLockupMonths: Option<int>,
    isInvestingEnabled: Option<bool>)
  /** A row of the transactions table; `id` is the row's position in the log. */
  datatype Entry = Entry(
    id: nat,
    playerId: PlayerId,
    accountId: Option<AccountId>,
    amount: int,
    kind: TxType,
    metadata: Meta,
    createdAt: nat)

  // Column defaults
  const DefaultCash: int := 500
  const DefaultBank: int := 1000
  const DefaultApr: int := 0
  const DefaultSavingsAPR: int := 2
  const DefaultIncomeTaxRate: int := 10
  const DefaultSalesTaxRate: int := 8
  const DefaultBusinessTaxRate: int := 15
  const DefaultInvestingLockupMonths: int := 12
  const DefaultIsInvestingEnabled: bool := false
  const DefaultGovernmentName: string := "Los Santos Government"

  /** The whole database as a value. The three counters stand for the id
      generators: the random uuid of a bank account and the two serials. */
  datatype Tables = Tables(
    players: map<PlayerId, Player>,
    accounts: map<AccountId, Account>,
    jobs: map<JobId, Job>,
    policies: seq<Policy>,
    government: Option<Government>,
    log: seq<Entry>,
    nextAccountId: nat,
    nextJobId: nat,
    nextPolicyId: nat)
  {
    /** Keys and ids agree, ids come from the generators, serial policy ids
        increase along the table, and the two foreign keys of the schema hold:
        an account's owner is a player, the government's account exists. */
    ghost predicate Valid() {
      && 1 <= nextJobId && 1 <= nextPolicyId
      && (forall p :: p in players ==> players[p].playerId == p)
      && (forall a :: a in accounts ==>
            accounts[a].id == a && a < nextAccountId && accounts[a].ownerId in players)
      && (forall j :: j in jobs ==> jobs[j].id == j && 1 <= j < nextJobId)
      && (forall i :: 0 <= i < |policies| ==> 1 <= policies[i].id < nextPolicyId)
      && PolicyIdsIncrease(policies)
      && (government.Some? && government.value.accountId.Some? ==>
            government.value.accountId.value in accounts)
      && (forall i :: 0 <= i < |log| ==> log[i].id == i)
    }

    /** No player holds negative cash and no account a negative balance. */
    ghost predicate NonNegative() {
      && (forall p :: p in players ==> players[p].cash >= 0)
      && (forall a :: a in accounts ==> accounts[a].balance >= 0)
    }
  }

  ghost predicate PolicyIdsIncrease(policies: seq<Policy>) {
    forall i, j :: 0 <= i < j < |policies| ==> policies[i].id < policies[j].id
  }

  const Empty: Tables := Tables(map[], map[], map[], [], None, [], 0, 1, 1)

  /** What a service call returns, together with the database it leaves. */
  datatype Step<+R> = Step(result: Result<R>, after: Tables)

  /** The database, updated in place by the services. */
  class Database {
    var players: map<PlayerId, Player>
    var accounts: map<AccountId, Account>
    var jobs: map<JobId, Job>
    var policies: seq<Policy>
    var government: Option<Government>
    var log: seq<Entry>
    var nextAccountId: nat
    var nextJobId: nat
    var nextPolicyId: nat

    function Snapshot(): Tables
      reads this
    {
      Tables(players, accounts, jobs, policies, government, log, nextAccountId, nextJobId, nextPolicyId)
    }

    ghost predicate Valid()
      reads this
    {
      Snapshot().Valid()
    }

    constructor ()
      ensures Valid() && Snapshot() == Empty
    {
      players, accounts, jobs, policies := map[], map[], map[], [];
      government, log := None, [];
      nextAccountId, nextJobId, nextPolicyId := 0, 1, 1;
    }
  }

  /** Inserting a row into `players`: `player_id` is unique, and `cash` and
      `bank` take their column defaults when the insert leaves them out. */
  function InsertPlayerStep(t: Tables, playerId: PlayerId, jobId: JobId, cash: Option<int>, bank: Option<int>): (s: Step<Player>)
    ensures playerId in t.players <==> s.result == Err(DuplicatePlayer)
    ensures s.result.Err? ==> s.after == t
    ensures s.result.Ok? ==>
      && s.result.value.cash == (if cash.None? then 500 else cash.value)
      && s.result.value.bank == (if bank.None? then 1000 else bank.value)
      && s.result.value.playerId == playerId && s.result.value.jobId == jobId
      && s.after == t.(players := t.players[playerId := s.result.value])
    ensures t.Valid() ==> s.after.Valid()
  {
    if playerId in t.players then Step(Err(DuplicatePlayer), t)
    else
      var p := Player(playerId, jobId, cash.GetOr(DefaultCash), bank.GetOr(DefaultBank));
      Step(Ok(p), t.(players := t.players[playerId := p]))
  }

  method InsertPlayer(db: Database, playerId: PlayerId, jobId: JobId, cash: Option<int>, bank: Option<int>)
    returns (r: Result<Player>)
    modifies db
    ensures Step(r, db.Snapshot()) == InsertPlayerStep(old(db.Snapshot()), playerId, jobId, cash, bank)
  {
    if playerId in db.players {
      return Err(DuplicatePlayer);
    }
    var p := Player(playerId, jobId, cash.GetOr(DefaultCash), bank.GetOr(DefaultBank));
    db.players := db.players[playerId := p];
    return Ok(p);
  }
}
