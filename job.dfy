/**
 * Jobs and payroll: creating a job, assigning one to a player, and paying a
 * player's salary into their chequing account with income tax withheld and
 * credited to the government treasury.
 */
module Job {
  import opened Schema
  import opened Accounting
  import opened Economy
  import opened Government

  /** createJob: insert a row; the serial id is the next one. */
  function CreateJobStep(t: Tables, name: string, salary: int): (s: Step<Job>)
    ensures s.result.Ok?
    ensures s.result.value.name == name && s.result.value.salary == salary
    ensures s.result.value.id == t.nextJobId
    ensures t.Valid() ==> s.result.value.id !in t.jobs
    ensures s.after == t.(jobs := t.jobs[t.nextJobId := s.result.value], nextJobId := t.nextJobId + 1)
    ensures t.Valid() ==> s.after.Valid()
  {
    var job := Job(t.nextJobId, name, salary);
    Step(Ok(job), t.(jobs := t.jobs[job.id := job], nextJobId := t.nextJobId + 1))
  }

  method CreateJob(db: Database, name: string, salary: int) returns (r: Result<Job>)
    modifies db
    ensures Step(r, db.Snapshot()) == CreateJobStep(old(db.Snapshot()), name, salary)
  {
    var job := Job(db.nextJobId, name, salary);
    db.jobs := db.jobs[job.id := job];
    db.nextJobId := db.nextJobId + 1;
    r := Ok(job);
    assert Step(r, db.Snapshot()) == CreateJobStep(old(db.Snapshot()), name, salary);
  }

  /** assignJob: set the player's job id. The update returns no row for an
      unknown player (reported as success with no player), and the job id is
      not checked against the jobs table. */
  function AssignJobStep(t: Tables, playerId: PlayerId, jobId: JobId): (s: Step<Option<Player>>)
    ensures s.result.Ok?
    ensures playerId !in t.players <==> s.result.value.None?
    ensures playerId !in t.players ==> s.after == t
    ensures playerId in t.players ==>
      && s.result.value == Some(t.players[playerId].(jobId := jobId))
      && s.after == t.(players := t.players[playerId := s.result.value.value])
    ensures t.Valid() ==> s.after.Valid()
    ensures TotalMoney(s.after) == TotalMoney(t)
  {
    if playerId !in t.players then Step(Ok(None), t)
    else
      var p := t.players[playerId].(jobId := jobId);
      var s := Step(Ok(Some(p)), t.(players := t.players[playerId := p]));
      SumOfUpdate(t.players, CashOf, playerId, p);
      s
  }

  method AssignJob(db: Database, playerId: PlayerId, jobId: JobId) returns (r: Result<Option<Player>>)
    modifies db
    ensures Step(r, db.Snapshot()) == AssignJobStep(old(db.Snapshot()), playerId, jobId)
  {
    if playerId !in db.players {
      return Ok(None);
    }
    var updatedPlayer := db.players[playerId].(jobId := jobId);
    db.players := db.players[playerId := updatedPlayer];
    r := Ok(Some(updatedPlayer));
    assert Step(r, db.Snapshot()) == AssignJobStep(old(db.Snapshot()), playerId, jobId);
  }

  /** A salary split into what the employee receives and what is withheld. */
  datatype Split = Split(net: int, tax: int)

  /** The income tax on `salary` at `rate` percent, rounded down (a null
      rate counts as zero), and the rest of the salary. */
  function Withholding(salary: int, rate: Option<int>): (w: Split)
    ensures w.net + w.tax == salary
    ensures var r := rate.GetOr(0); w.tax * 100 <= salary * r < w.tax * 100 + 100
    ensures rate.None? ==> w == Split(salary, 0)
    ensures var r := rate.GetOr(0); 0 <= r <= 100 && 0 <= salary ==> 0 <= w.tax <= salary && 0 <= w.net
  {
    var r := rate.GetOr(0);
    var tax := (salary * r) / 100;
    assert 0 <= r <= 100 && 0 <= salary ==> salary * r <= salary * 100;
    Split(salary - tax, tax)
  }

  predicate IsChequingOf(a: Account, owner: PlayerId) {
    a.ownerId == owner && a.subType == Chequing
  }

  /** The first chequing account of `owner` among the ids in [k, bound): the
      single row the lookup takes, chosen here as the one with the lowest id. */
  function FirstChequing(accounts: map<AccountId, Account>, owner: PlayerId, k: nat, bound: nat): (r: Option<AccountId>)
    ensures r.Some? ==>
      && k <= r.value < bound && r.value in accounts && IsChequingOf(accounts[r.value], owner)
      && forall b :: k <= b < r.value && b in accounts ==> !IsChequingOf(accounts[b], owner)
    ensures r.None? ==> forall b :: k <= b < bound && b in accounts ==> !IsChequingOf(accounts[b], owner)
    decreases bound - k
  {
    if bound <= k then None
    else if k in accounts && IsChequingOf(accounts[k], owner) then Some(k)
    else FirstChequing(accounts, owner, k + 1, bound)
  }

  /** The player's chequing account used by payroll: the lowest-id one, or
      none when the player has no chequing account at all. */
  function ChequingOf(t: Tables, owner: PlayerId): (r: Option<AccountId>)
    ensures r.Some? ==>
      && r.value in t.accounts && IsChequingOf(t.accounts[r.value], owner)
      && forall b :: b < r.value && b in t.accounts ==> !IsChequingOf(t.accounts[b], owner)
    ensures r.None? && t.Valid() ==> forall b :: b in t.accounts ==> !IsChequingOf(t.accounts[b], owner)
  {
    FirstChequing(t.accounts, owner, 0, t.nextAccountId)
  }

  /** What paySalary returns: the two updated rows, and the net pay and tax
      reported in its message. */
  datatype Payslip = Payslip(playerAccount: Account, govAccount: Account, net: int, tax: int)

  /** The label the treasury's log row carries as its initiator. */
  const GovernmentInitiator: PlayerId := "government"

  /** What the six lookups of paySalary yield: the player's chequing account,
      the treasury account and the salary split at the current tax rate. */
  datatype Payroll = Payroll(chequing: AccountId, treasury: AccountId, split: Split)

  /** The lookups of paySalary, in their order: player, job, latest policy,
      government row, player chequing account, treasury account. */
  function PayrollLookup(t: Tables, playerId: PlayerId): (r: Result<Payroll>)
    ensures playerId !in t.players ==> r == Err(PlayerNotFound)
    ensures playerId in t.players && t.players[playerId].jobId !in t.jobs ==> r == Err(JobNotFound)
    ensures playerId in t.players && t.players[playerId].jobId in t.jobs && t.policies == [] ==>
              r == Err(PolicyNotFound)
    ensures (playerId in t.players && t.players[playerId].jobId in t.jobs && t.policies != [] &&
             t.government.None?) ==> r == Err(TreasuryNotFound)
    ensures (playerId in t.players && t.players[playerId].jobId in t.jobs && t.policies != [] &&
             t.government.Some? && ChequingOf(t, playerId).None?) ==> r == Err(ChequingNotFound)
    ensures (playerId in t.players && t.players[playerId].jobId in t.jobs && t.policies != [] &&
             t.government.Some? && ChequingOf(t, playerId).Some? &&
             !(t.government.value.accountId.Some? && t.government.value.accountId.value in t.accounts)) ==>
              r == Err(GovernmentAccountNotFound)
    ensures r.Ok? <==>
              && playerId in t.players && t.players[playerId].jobId in t.jobs && t.policies != []
              && t.government.Some? && ChequingOf(t, playerId).Some?
              && t.government.value.accountId.Some? && t.government.value.accountId.value in t.accounts
    ensures r.Ok? ==>
      && r.value.chequing == ChequingOf(t, playerId).value && r.value.chequing in t.accounts
      && r.value.treasury == t.government.value.accountId.value && r.value.treasury in t.accounts
      && r.value.split == Withholding(t.jobs[t.players[playerId].jobId].salary,
                                      CurrentPolicy(t.policies).value.incomeTaxRate)
  {
    if playerId !in t.players then Err(PlayerNotFound)
    else if t.players[playerId].jobId !in t.jobs then Err(JobNotFound)
    else
      var job := t.jobs[t.players[playerId].jobId];
      var policy := CurrentPolicy(t.policies);
      if policy.Err? then Err(PolicyNotFound)
      else
        var w := Withholding(job.salary, policy.value.incomeTaxRate);
        if t.government.None? then Err(TreasuryNotFound)
        else
          var chequing := ChequingOf(t, playerId);
          if chequing.None? then Err(ChequingNotFound)
          else
            var gov := t.government.value;
            if !(gov.accountId.Some? && gov.accountId.value in t.accounts) then Err(GovernmentAccountNotFound)
            else Ok(Payroll(chequing.value, gov.accountId.value, w))
  }

  /** paySalary: after the lookups, credit the net pay to the player's
      chequing account and the tax to the treasury. Both rows are read before
      either write, so when they are the same account the second write keeps
      only the tax. Nothing is debited. */
  function PaySalaryStep(t: Tables, playerId: PlayerId, now: nat): (s: Step<Payslip>)
    ensures var lookup := PayrollLookup(t, playerId);
      && (lookup.Err? ==> s == Step(Err(lookup.error), t))
      && (lookup.Ok? ==>
            var c, g, w := lookup.value.chequing, lookup.value.treasury, lookup.value.split;
            var pa, ga := t.accounts[c].(balance := t.accounts[c].balance + w.net),
                          t.accounts[g].(balance := t.accounts[g].balance + w.tax);
            && s.result == Ok(Payslip(pa, ga, w.net, w.tax))
            && s.after == t.(accounts := t.accounts[c := pa][g := ga],
                             log := t.log + [Entry(|t.log|, playerId, Some(c), w.net, DepositTx, Note("paycheck"), now)]
                                          + [Entry(|t.log| + 1, GovernmentInitiator, Some(g), w.tax, DepositTx,
                                                   Note("income_tax"), now)]))
    ensures s.result.Ok? ==> s.result.value.net + s.result.value.tax == t.jobs[t.players[playerId].jobId].salary
    ensures t.Valid() ==> s.after.Valid()
  {
    match PayrollLookup(t, playerId)
    case Err(e) => Step(Err(e), t)
    case Ok(Payroll(c, g, w)) =>
      var pa, ga := t.accounts[c], t.accounts[g];
      var pa', ga' := pa.(balance := pa.balance + w.net), ga.(balance := ga.balance + w.tax);
      var t1 := Logged(t.(accounts := t.accounts[c := pa']), playerId, Some(c), w.net, DepositTx,
                       Note("paycheck"), now);
      var t2 := Logged(t1.(accounts := t1.accounts[g := ga']), GovernmentInitiator, Some(g), w.tax,
                       DepositTx, Note("income_tax"), now);
      Step(Ok(Payslip(pa', ga', w.net, w.tax)), t2)
  }

  method PaySalary(db: Database, playerId: PlayerId, now: nat) returns (r: Result<Payslip>)
    modifies db
    ensures Step(r, db.Snapshot()) == PaySalaryStep(old(db.Snapshot()), playerId, now)
  {
    ghost var before := db.Snapshot();
    if playerId !in db.players {
      return Err(PlayerNotFound);
    }
    var player := db.players[playerId];
    if player.jobId !in db.jobs {
      return Err(JobNotFound);
    }
    var job := db.jobs[player.jobId];
    var policy := CurrentPolicy(db.policies);
    if policy.Err? {
      return Err(PolicyNotFound);
    }
    var w := Withholding(job.salary, policy.value.incomeTaxRate);
    var gov := db.government;
    if gov.None? {
      return Err(TreasuryNotFound);
    }
    var chequing := FirstChequing(db.accounts, playerId, 0, db.nextAccountId);
    if chequing.None? {
      return Err(ChequingNotFound);
    }
    var playerAccountId := chequing.value;
    var playerAccount := db.accounts[playerAccountId];
    if !(gov.value.accountId.Some? && gov.value.accountId.value in db.accounts) {
      return Err(GovernmentAccountNotFound);
    }
    var govAccountId := gov.value.accountId.value;
    var govAccount := db.accounts[govAccountId];
    assert PayrollLookup(before, playerId) == Ok(Payroll(playerAccountId, govAccountId, w));
    // The transaction: both credits use the rows as read above.
    var updatedPlayerAccount := playerAccount.(balance := playerAccount.balance + w.net);
    db.accounts := db.accounts[playerAccountId := updatedPlayerAccount];
    LogTransaction(db, playerId, Some(playerAccountId), w.net, DepositTx, Note("paycheck"), now);
    var updatedGovAccount := govAccount.(balance := govAccount.balance + w.tax);
    db.accounts := db.accounts[govAccountId := updatedGovAccount];
    LogTransaction(db, GovernmentInitiator, Some(govAccountId), w.tax, DepositTx, Note("income_tax"), now);
    r := Ok(Payslip(updatedPlayerAccount, updatedGovAccount, w.net, w.tax));
    assert Step(r, db.Snapshot()) == PaySalaryStep(before, playerId, now);
  }

  /** The tax withheld is the current (latest) policy's income tax rate
      applied to the job's salary. */
  lemma PaySalaryTaxesAtLatestRate(t: Tables, playerId: PlayerId, now: nat)
    requires t.Valid()
    requires PaySalaryStep(t, playerId, now).result.Ok?
    ensures var pay := PaySalaryStep(t, playerId, now).result.value;
      var salary := t.jobs[t.players[playerId].jobId].salary;
      Split(pay.net, pay.tax) == Withholding(salary, t.policies[|t.policies| - 1].incomeTaxRate)
  {
    CurrentIsLast(t.policies);
  }

  /** Payroll debits nobody: paying a salary adds the whole salary to the
      money in the game, or only the tax when the player's chequing account
      is the treasury itself. */
  lemma PaySalaryMintsSalary(t: Tables, playerId: PlayerId, now: nat)
    requires t.Valid()
    requires PaySalaryStep(t, playerId, now).result.Ok?
    ensures var s := PaySalaryStep(t, playerId, now);
      var pay := s.result.value;
      var salary := t.jobs[t.players[playerId].jobId].salary;
      TotalMoney(s.after) == TotalMoney(t) + (if pay.playerAccount.id != pay.govAccount.id then salary else pay.tax)
  {
    var s := PaySalaryStep(t, playerId, now);
    var pay := s.result.value;
    var c, g := ChequingOf(t, playerId).value, t.government.value.accountId.value;
    var m1 := t.accounts[c := pay.playerAccount];
    SumOfUpdate(t.accounts, BalanceOf, c, pay.playerAccount);
    SumOfUpdate(m1, BalanceOf, g, pay.govAccount);
  }

  /** With a non-negative salary and a tax rate between 0 and 100 percent,
      payroll keeps every balance non-negative. */
  lemma PaySalaryKeepsNonNegative(t: Tables, playerId: PlayerId, now: nat)
    requires t.NonNegative()
    requires PaySalaryStep(t, playerId, now).result.Ok?
    requires t.jobs[t.players[playerId].jobId].salary >= 0
    requires var rate := CurrentPolicy(t.policies).value.incomeTaxRate.GetOr(0); 0 <= rate <= 100
    ensures PaySalaryStep(t, playerId, now).after.NonNegative()
  {
  }

  /** A player whose job id names no job is never paid; assignJob lets such
      an id through. */
  lemma AssigningUnknownJobStopsPay(t: Tables, playerId: PlayerId, jobId: JobId, now: nat)
    requires playerId in t.players && jobId !in t.jobs
    ensures PaySalaryStep(AssignJobStep(t, playerId, jobId).after, playerId, now).result == Err(JobNotFound)
  {
  }

  /** A job just created and assigned gets past the player and job checks of
      payroll, and is paid at the salary it was created with. */
  lemma CreatedJobIsPaid(t: Tables, name: string, salary: int, playerId: PlayerId, now: nat)
    requires t.Valid() && playerId in t.players
    ensures var s1 := CreateJobStep(t, name, salary);
      var s2 := AssignJobStep(s1.after, playerId, s1.result.value.id);
      var s3 := PaySalaryStep(s2.after, playerId, now);
      && s3.result != Err(PlayerNotFound) && s3.result != Err(JobNotFound)
      && (s3.result.Ok? ==> s3.result.value.net + s3.result.value.tax == salary)
  {
  }
}
