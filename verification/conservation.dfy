/**
 * Where the money in the ledger comes from, stated as two invariants that every
 * handler keeps:
 *
 *  - every unit of investment balance is backed by an approved deposit: the sum of
 *    investment balances is the sum of approved deposit amounts;
 *  - every unit of profit ever paid out is either still in a profit balance or held
 *    by a withdrawal that was not rejected (pending or approved): profit balances
 *    plus those withdrawals add up to the sum of all payouts.
 *
 * A run of requests from the empty ledger therefore never creates or loses money.
 */
module Conservation {
  import opened Wrappers
  import opened Sums
  import opened Records
  import opened ProfitCalculate
  import opened ProfitDistribute
  import opened AdminStats
  import Auth
  import Deposits
  import Withdrawals
  import DepositReview
  import WithdrawalReview

  /** A withdrawal whose amount has left the owner's profit balance and not come back. */
  predicate Withdrawn(w: Withdrawal) {
    w.status != Rejected
  }

  ghost predicate InvestmentBacked(l: Ledger) {
    SumOf(l.users, InvestmentOf) == SumWhere(l.deposits, ApprovedDeposit, DepositAmount)
  }

  ghost predicate ProfitBacked(l: Ledger) {
    SumOf(l.users, ProfitOf) + SumWhere(l.withdrawals, Withdrawn, WithdrawalAmount) == SumOf(l.payouts, PayoutShare)
  }

  ghost predicate Conserved(l: Ledger) {
    InvestmentBacked(l) && ProfitBacked(l)
  }

  /** With the investment invariant, the dashboard's pool is the approved-deposit total. */
  lemma DashboardPoolIsApprovedDeposits(l: Ledger)
    requires InvestmentBacked(l)
    ensures Dashboard(l).totalInvestmentPool == Dashboard(l).totalDepositsApproved
  {
    DashboardIsTheSums(l);
  }

  /** Appending a user with zero balances. */
  lemma AuthConserves(l: Ledger, authorization: Option<string>, verify: string -> Option<Auth.Claims>)
    requires Conserved(l)
    ensures Conserved(Auth.RequireAuth(l, authorization, verify).ledger)
  {
    var r := Auth.RequireAuth(l, authorization, verify);
    if r.ledger != l {
      var u := r.response.value;
      SumOfAppend(l.users, [u], InvestmentOf);
      SumOfAppend(l.users, [u], ProfitOf);
    }
  }

  /** A new deposit is pending: it backs nothing yet. */
  lemma CreateDepositConserves(l: Ledger, caller: User, req: Deposits.DepositRequest)
    requires Conserved(l)
    ensures Conserved(Deposits.CreateDeposit(l, caller, req).ledger)
  {
    var r := Deposits.CreateDeposit(l, caller, req);
    if r.response.Ok? {
      SumWhereAppend(l.deposits, [r.response.value], ApprovedDeposit, DepositAmount);
    }
  }

  /** The debit moves the amount from the profit balance into the new pending withdrawal. */
  lemma CreateWithdrawalConserves(l: Ledger, caller: User, req: Withdrawals.WithdrawalRequest)
    requires Conserved(l)
    ensures Conserved(Withdrawals.CreateWithdrawal(l, caller, req).ledger)
  {
    var r := Withdrawals.CreateWithdrawal(l, caller, req);
    if r.response.Ok? {
      Withdrawals.CreateWithdrawalDebitsTheSum(l, caller, req);
      SumWhereAppend(l.withdrawals, [r.response.value], Withdrawn, WithdrawalAmount);
    }
  }

  /** Approval raises the investment sum and the approved-deposit sum by the same amount. */
  lemma ApproveDepositConserves(l: Ledger, admin: Id, id: Id)
    requires Conserved(l)
    ensures Conserved(DepositReview.ApproveDeposit(l, admin, id).ledger)
  {
    var r := DepositReview.ApproveDeposit(l, admin, id);
    if r.response.Ok? {
      var i := FindDeposit(l.deposits, id).value;
      var d := l.deposits[i];
      DepositReview.ApproveRaisesInvestmentSum(l, admin, id);
      SumWhereUpdate(l.deposits, i, d.(status := Approved, reviewedById := Some(admin), approvedAt := Some(l.clock)), ApprovedDeposit, DepositAmount);
    }
  }

  /** Rejecting a pending deposit moves nothing that either invariant counts. */
  lemma RejectDepositConserves(l: Ledger, admin: Id, id: Id, reason: Option<string>)
    requires Conserved(l)
    ensures Conserved(DepositReview.RejectDeposit(l, admin, id, reason).ledger)
  {
    var r := DepositReview.RejectDeposit(l, admin, id, reason);
    if r.response.Ok? {
      var i := FindDeposit(l.deposits, id).value;
      var d := l.deposits[i];
      SumWhereUpdate(l.deposits, i, r.ledger.deposits[i], ApprovedDeposit, DepositAmount);
      assert r.ledger.deposits == l.deposits[i := r.ledger.deposits[i]];
    }
  }

  /** Approval keeps a pending withdrawal's amount held: it is paid out, not returned. */
  lemma ApproveWithdrawalConserves(l: Ledger, admin: Id, id: Id, txId: Option<string>, note: Option<string>)
    requires Conserved(l)
    ensures Conserved(WithdrawalReview.ApproveWithdrawal(l, admin, id, txId, note).ledger)
  {
    var r := WithdrawalReview.ApproveWithdrawal(l, admin, id, txId, note);
    if r.response.Ok? {
      var i := FindWithdrawal(l.withdrawals, id).value;
      SumWhereUpdate(l.withdrawals, i, r.ledger.withdrawals[i], Withdrawn, WithdrawalAmount);
      assert r.ledger.withdrawals == l.withdrawals[i := r.ledger.withdrawals[i]];
    }
  }

  /** Rejection moves the held amount back into the owner's profit balance. */
  lemma RejectWithdrawalConserves(l: Ledger, admin: Id, id: Id, reason: Option<string>)
    requires Conserved(l)
    ensures Conserved(WithdrawalReview.RejectWithdrawal(l, admin, id, reason).ledger)
  {
    var r := WithdrawalReview.RejectWithdrawal(l, admin, id, reason);
    if r.response.Ok? {
      var i := FindWithdrawal(l.withdrawals, id).value;
      WithdrawalReview.ReviewMovesTheProfitSum(l, admin, id, reason, None, None);
      SumWhereUpdate(l.withdrawals, i, r.ledger.withdrawals[i], Withdrawn, WithdrawalAmount);
      assert r.ledger.withdrawals == l.withdrawals[i := r.ledger.withdrawals[i]];
    }
  }

  /** A commit pays out exactly what it adds to the profit balances. */
  lemma DistributeConserves(l: Ledger, actor: Id, req: ProfitRequest, fault: Option<nat>)
    requires Valid(l)
    requires Conserved(l)
    ensures Conserved(Distribute(l, actor, req, fault).ledger)
  {
    var r := Distribute(l, actor, req, fault);
    if r.response.Ok? {
      var c := Calculate(l.users, req.distributionPercent.value);
      DistributeOkIsLoop(l, actor, req, fault);
      PayoutLoopOkHasNoFault(Staged(l, actor, req), l.nextId, c.lines, 0, fault);
      DistributeConservesMoney(l, actor, req, fault);
      PayoutRecordsTotal(l.nextId, c.lines);
      SumOfAppend(l.payouts, PayoutRecords(l.nextId, c.lines), PayoutShare);
    }
  }

  /** One request that can write, with what the handler needs beyond the ledger. */
  datatype Request =
    | SignIn(authorization: Option<string>)
    | DepositCreate(caller: User, deposit: Deposits.DepositRequest)
    | WithdrawalCreate(caller: User, withdrawal: Withdrawals.WithdrawalRequest)
    | DepositApprove(admin: Id, id: Id)
    | DepositReject(admin: Id, id: Id, reason: Option<string>)
    | WithdrawalApprove(admin: Id, id: Id, txId: Option<string>, note: Option<string>)
    | WithdrawalReject(admin: Id, id: Id, reason: Option<string>)
    | DistributeProfit(actor: Id, profit: ProfitRequest, fault: Option<nat>)

  /** The ledger a request leaves behind, whatever it answered. */
  function Step(l: Ledger, verify: string -> Option<Auth.Claims>, q: Request): Ledger {
    match q
    case SignIn(h) => Auth.RequireAuth(l, h, verify).ledger
    case DepositCreate(u, d) => Deposits.CreateDeposit(l, u, d).ledger
    case WithdrawalCreate(u, w) => Withdrawals.CreateWithdrawal(l, u, w).ledger
    case DepositApprove(a, id) => DepositReview.ApproveDeposit(l, a, id).ledger
    case DepositReject(a, id, why) => DepositReview.RejectDeposit(l, a, id, why).ledger
    case WithdrawalApprove(a, id, tx, note) => WithdrawalReview.ApproveWithdrawal(l, a, id, tx, note).ledger
    case WithdrawalReject(a, id, why) => WithdrawalReview.RejectWithdrawal(l, a, id, why).ledger
    case DistributeProfit(a, p, f) => Distribute(l, a, p, f).ledger
  }

  /** The requests served one after another, in order. */
  function Run(l: Ledger, verify: string -> Option<Auth.Claims>, qs: seq<Request>): Ledger
    decreases |qs|
  {
    if |qs| == 0 then l else Run(Step(l, verify, qs[0]), verify, qs[1..])
  }

  /** The empty database: no rows, ids and timestamps not yet used. */
  const Empty := Ledger([], [], [], [], [], [], 0, 0)

  lemma EmptyIsValidAndConserved()
    ensures Valid(Empty) && Conserved(Empty)
  {
  }

  /** Every request keeps the integrity rules. */
  lemma StepKeepsValid(l: Ledger, verify: string -> Option<Auth.Claims>, q: Request)
    requires Valid(l)
    ensures Valid(Step(l, verify, q))
  {
    match q
    case SignIn(h) => Auth.RequireAuthKeepsValid(l, h, verify);
    case DepositCreate(u, d) => Deposits.CreateDepositKeepsValid(l, u, d);
    case WithdrawalCreate(u, w) => Withdrawals.CreateWithdrawalKeepsValid(l, u, w);
    case DepositApprove(a, id) => DepositReview.ReviewKeepsValid(l, a, id, None);
    case DepositReject(a, id, why) => DepositReview.ReviewKeepsValid(l, a, id, why);
    case WithdrawalApprove(a, id, tx, note) => WithdrawalReview.ReviewKeepsValid(l, a, id, None, tx, note);
    case WithdrawalReject(a, id, why) => WithdrawalReview.ReviewKeepsValid(l, a, id, why, None, None);
    case DistributeProfit(a, p, f) => DistributeKeepsValid(l, a, p, f);
  }

  /** Every request keeps both money invariants. */
  lemma StepConserves(l: Ledger, verify: string -> Option<Auth.Claims>, q: Request)
    requires Valid(l) && Conserved(l)
    ensures Conserved(Step(l, verify, q))
  {
    match q
    case SignIn(h) => AuthConserves(l, h, verify);
    case DepositCreate(u, d) => CreateDepositConserves(l, u, d);
    case WithdrawalCreate(u, w) => CreateWithdrawalConserves(l, u, w);
    case DepositApprove(a, id) => ApproveDepositConserves(l, a, id);
    case DepositReject(a, id, why) => RejectDepositConserves(l, a, id, why);
    case WithdrawalApprove(a, id, tx, note) => ApproveWithdrawalConserves(l, a, id, tx, note);
    case WithdrawalReject(a, id, why) => RejectWithdrawalConserves(l, a, id, why);
    case DistributeProfit(a, p, f) => DistributeConserves(l, a, p, f);
  }

  /**
   * Any sequence of requests from a valid, conserved ledger (the empty one, say)
   * ends in a valid, conserved ledger: the investment pool is always the approved
   * deposits, and profit paid out is always in a balance or in a withdrawal.
   */
  lemma {:induction false} RunKeepsInvariants(l: Ledger, verify: string -> Option<Auth.Claims>, qs: seq<Request>)
    requires Valid(l) && Conserved(l)
    ensures Valid(Run(l, verify, qs)) && Conserved(Run(l, verify, qs))
    decreases |qs|
  {
    if |qs| > 0 {
      StepKeepsValid(l, verify, qs[0]);
      StepConserves(l, verify, qs[0]);
      RunKeepsInvariants(Step(l, verify, qs[0]), verify, qs[1..]);
    }
  }

  /** From the empty ledger, the dashboard's pool always equals its approved-deposit total. */
  lemma DashboardBalancesAfterAnyRun(verify: string -> Option<Auth.Claims>, qs: seq<Request>)
    ensures var s := Dashboard(Run(Empty, verify, qs));
      s.totalInvestmentPool == s.totalDepositsApproved
  {
    EmptyIsValidAndConserved();
    RunKeepsInvariants(Empty, verify, qs);
    DashboardPoolIsApprovedDeposits(Run(Empty, verify, qs));
  }
}
