/**
 * The admin dashboard figures (`GET /admin/stats`): the number of users, the sums of
 * approved deposits and of approved withdrawals, the pending counts, and the sum of
 * all investment balances. Nothing is written.
 *
 * A sum aggregate over no rows answers no value, and the handler turns a missing or
 * zero sum into 0 with `|| 0`.
 */
module AdminStats {
  import opened Wrappers
  import opened Sums
  import opened Records
  import opened ProfitCalculate

  datatype Stats = Stats(
    totalUsers: nat,
    totalDepositsApproved: real,
    totalWithdrawalsApproved: real,
    pendingDeposits: nat,
    pendingWithdrawals: nat,
    totalInvestmentPool: real)

  /** A `_sum` aggregate with a `where`: no value when no row matches. */
  function AggregateSum<T>(s: seq<T>, p: T -> bool, f: T -> real): (r: Option<real>)
    ensures r.None? <==> CountWhere(s, p) == 0
  {
    if CountWhere(s, p) == 0 then None else Some(SumWhere(s, p, f))
  }

  /** `x || 0` on a nullable decimal: a missing value and zero both become 0. */
  function OrZero(v: Option<real>): real {
    if v.Some? && v.value != 0.0 then v.value else 0.0
  }

  predicate ApprovedDeposit(d: Deposit) { d.status == Approved }
  predicate PendingDeposit(d: Deposit) { d.status == Pending }
  predicate ApprovedWithdrawal(w: Withdrawal) { w.status == Approved }
  predicate PendingWithdrawal(w: Withdrawal) { w.status == Pending }
  function DepositAmount(d: Deposit): real { d.amount }
  function WithdrawalAmount(w: Withdrawal): real { w.amount }

  function Everyone(u: User): bool { true }

  function Dashboard(l: Ledger): (s: Stats)
    ensures s.totalUsers == |l.users|
  {
    Stats(|l.users|,
          OrZero(AggregateSum(l.deposits, ApprovedDeposit, DepositAmount)),
          OrZero(AggregateSum(l.withdrawals, ApprovedWithdrawal, WithdrawalAmount)),
          CountWhere(l.deposits, PendingDeposit),
          CountWhere(l.withdrawals, PendingWithdrawal),
          OrZero(AggregateSum(l.users, Everyone, InvestmentOf)))
  }

  /** A `where` that matches no row sums to zero. */
  lemma {:induction false} SumWhereOfNoRows<T>(s: seq<T>, p: T -> bool, f: T -> real)
    requires CountWhere(s, p) == 0
    ensures SumWhere(s, p, f) == 0.0
    decreases |s|
  {
    if |s| > 0 {
      SumWhereOfNoRows(s[1..], p, f);
    }
  }

  /** `|| 0` over an aggregate gives exactly the sum of the matching rows, 0 when there are none. */
  lemma OrZeroIsTheSum<T>(s: seq<T>, p: T -> bool, f: T -> real)
    ensures OrZero(AggregateSum(s, p, f)) == SumWhere(s, p, f)
  {
    if CountWhere(s, p) == 0 {
      SumWhereOfNoRows(s, p, f);
    }
  }

  lemma {:induction false} SumWhereEveryone(us: seq<User>)
    ensures SumWhere(us, Everyone, InvestmentOf) == SumOf(us, InvestmentOf)
    decreases |us|
  {
    if |us| > 0 {
      SumWhereEveryone(us[1..]);
    }
  }

  /** The figures are the sums and counts they name, each 0 over an empty table. */
  lemma DashboardIsTheSums(l: Ledger)
    ensures var s := Dashboard(l);
      && s.totalDepositsApproved == SumWhere(l.deposits, ApprovedDeposit, DepositAmount)
      && s.totalWithdrawalsApproved == SumWhere(l.withdrawals, ApprovedWithdrawal, WithdrawalAmount)
      && s.pendingDeposits == CountWhere(l.deposits, PendingDeposit)
      && s.pendingWithdrawals == CountWhere(l.withdrawals, PendingWithdrawal)
      && s.totalInvestmentPool == SumOf(l.users, InvestmentOf)
  {
    OrZeroIsTheSum(l.deposits, ApprovedDeposit, DepositAmount);
    OrZeroIsTheSum(l.withdrawals, ApprovedWithdrawal, WithdrawalAmount);
    OrZeroIsTheSum(l.users, Everyone, InvestmentOf);
    SumWhereEveryone(l.users);
  }

  /** Without negative balances, the users left out of the calculator's pool hold nothing. */
  lemma {:induction false} EligiblePoolOfNonNegative(us: seq<User>)
    requires forall k :: 0 <= k < |us| ==> us[k].investmentBalance >= 0.0
    ensures SumOf(Eligible(us), InvestmentOf) == SumOf(us, InvestmentOf)
    decreases |us|
  {
    if |us| > 0 {
      EligiblePoolOfNonNegative(us[1..]);
    }
  }

  /**
   * The dashboard pool has no positivity filter. When no balance is negative it is
   * the calculator's pool, for every percent.
   */
  lemma PoolIsTheCalculatorPool(l: Ledger, percent: real)
    requires forall k :: 0 <= k < |l.users| ==> l.users[k].investmentBalance >= 0.0
    ensures Dashboard(l).totalInvestmentPool == Calculate(l.users, percent).investmentPool
  {
    DashboardIsTheSums(l);
    EligiblePoolOfNonNegative(l.users);
  }

  /** With a negative balance the two pools differ: the dashboard counts it, the calculator does not. */
  lemma NegativeBalanceSplitsThePools(u: User, l: Ledger, percent: real)
    requires l.users == [u] && u.investmentBalance < 0.0
    ensures Dashboard(l).totalInvestmentPool == u.investmentBalance
    ensures Calculate(l.users, percent).investmentPool == 0.0
  {
    DashboardIsTheSums(l);
    assert Eligible(l.users) == [] by {
      assert l.users[1..] == [];
    }
  }
}
