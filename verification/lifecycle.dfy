/**
 * Round trips across handlers: a withdrawal created and then rejected gives the
 * profit balance back, a deposit created and then approved raises the investment
 * balance by its amount; and a worked distribution, committed by the intended
 * route and refused by the route as written.
 */
module Lifecycle {
  import opened Wrappers
  import opened Sums
  import opened Records
  import opened ProfitCalculate
  import opened ProfitDistribute
  import Deposits
  import Withdrawals
  import DepositReview
  import WithdrawalReview

  /** In a valid ledger a newly inserted row's id is found at the end of its table. */
  lemma NewWithdrawalIsFound(l: Ledger, w: Withdrawal)
    requires WithdrawalsValid(l)
    requires w.id == l.nextId
    ensures FindWithdrawal(l.withdrawals + [w], w.id) == Some(|l.withdrawals|)
  {
    var ws := l.withdrawals + [w];
    forall k | 0 <= k < |l.withdrawals| ensures ws[k].id != w.id {
      assert ws[k] == l.withdrawals[k];
    }
    assert ws[|l.withdrawals|] == w;
  }

  lemma NewDepositIsFound(l: Ledger, d: Deposit)
    requires DepositsValid(l)
    requires d.id == l.nextId
    ensures FindDeposit(l.deposits + [d], d.id) == Some(|l.deposits|)
  {
    var ds := l.deposits + [d];
    forall k | 0 <= k < |l.deposits| ensures ds[k].id != d.id {
      assert ds[k] == l.deposits[k];
    }
    assert ds[|l.deposits|] == d;
  }

  /**
   * Creating a withdrawal and then rejecting it restores every balance: the debit
   * at creation and the refund at rejection cancel exactly.
   */
  lemma CreateThenRejectRestoresBalances(l: Ledger, caller: User, req: Withdrawals.WithdrawalRequest,
                                         admin: Id, reason: Option<string>)
    requires Valid(l)
    requires Withdrawals.CreateWithdrawal(l, caller, req).response.Ok?
    ensures var c := Withdrawals.CreateWithdrawal(l, caller, req);
      var r := WithdrawalReview.RejectWithdrawal(c.ledger, admin, c.response.value.id, reason);
      && r.response.Ok?
      && r.ledger.users == l.users
      && r.ledger.withdrawals[|l.withdrawals|].status == Rejected
  {
    var c := Withdrawals.CreateWithdrawal(l, caller, req);
    var w := c.response.value;
    var i := FindUser(l.users, caller.id).value;
    NewWithdrawalIsFound(l, w);
    AddProfitKeepsIds(l.users, i, -w.amount);
    SameIdsKeepLookups(l.users, c.ledger.users);
    assert FindUser(c.ledger.users, w.userId) == Some(i);
    var back := AddProfit(c.ledger.users, i, w.amount);
    assert back == l.users by {
      forall k | 0 <= k < |l.users| ensures back[k] == l.users[k] {
      }
    }
  }

  /** Creating a deposit and then approving it raises the caller's investment balance by exactly the amount. */
  lemma CreateThenApproveCreditsTheAmount(l: Ledger, caller: User, req: Deposits.DepositRequest, admin: Id)
    requires Valid(l)
    requires Deposits.CreateDeposit(l, caller, req).response.Ok?
    ensures var c := Deposits.CreateDeposit(l, caller, req);
      var r := DepositReview.ApproveDeposit(c.ledger, admin, c.response.value.id);
      var i := FindUser(l.users, caller.id).value;
      && r.response.Ok?
      && r.ledger.users == AddInvestment(l.users, i, req.amount.value)
      && r.ledger.users[i].investmentBalance == l.users[i].investmentBalance + req.amount.value
  {
    var c := Deposits.CreateDeposit(l, caller, req);
    NewDepositIsFound(l, c.response.value);
  }

  /** Two clients with 10000 each, and an admin with nothing invested. */
  const Alice := User(1, "user_a", Some("a@example.com"), Client, 10000.0, 0.0)
  const Bob := User(2, "user_b", Some("b@example.com"), Client, 10000.0, 0.0)
  const Root := User(3, "user_c", None, Admin, 0.0, 0.0)
  const Example := Ledger([Alice, Bob, Root], [], [], [], [], [], 4, 0)
  const ExampleRequest := ProfitRequest(Some(500.0), Some(0.7), Some(1))

  /** A 0.7 percent preview over two balances of 10000 pays 70 to each, 140 in all. */
  lemma ExampleCalculation()
    ensures var c := Calculate(Example.users, 0.7);
      && c.investmentPool == 20000.0
      && c.totalToDistribute == 140.0
      && c.recipientsCount == 2
      && c.lines == [LineOf(Alice, 0.7), LineOf(Bob, 0.7)]
      && c.lines[0].shareAmount == 70.0 && c.lines[1].shareAmount == 70.0
  {
    var us := Example.users;
    assert [Root][1..] == [] && [Bob, Root][1..] == [Root] && us[1..] == [Bob, Root];
    assert Eligible([Root]) == [];
    assert Eligible([Bob, Root]) == [Bob];
    assert Eligible(us) == [Alice] + [Bob];
    assert [Alice, Bob][1..] == [Bob];
    assert SumOf([Alice, Bob], InvestmentOf) == 10000.0 + SumOf([Bob], InvestmentOf);
    assert Share(10000.0, 0.7) == 70.0;
  }

  /** Committing that distribution credits 70 to each client and nothing to the admin. */
  lemma ExampleDistribution()
    ensures var r := Distribute(Example, Root.id, ExampleRequest, None);
      && r.response == Ok(Distributed(4, 2, 140.0))
      && r.ledger.users[0].profitBalance == 70.0
      && r.ledger.users[1].profitBalance == 70.0
      && r.ledger.users[2].profitBalance == 0.0
  {
    ExampleCalculation();
    assert UsersValid(Example);
    assert Example.users[2].id == Root.id;
    assert Share(10000.0, 0.7) == 70.0;
    DistributeCreditsEachShare(Example, Root.id, ExampleRequest, None);
  }

  /** The route as written answers the same request with a 500 and writes nothing. */
  lemma ExampleAsWrittenFails()
    ensures DistributeAsWritten(Example, Root.id, ExampleRequest, None) == Reply(Example, Err(ServerError))
  {
  }
}
