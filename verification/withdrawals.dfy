/**
 * The user's withdrawal routes: `POST /me/withdrawals` checks the caller's profit
 * balance, debits it at once (the hold a rejection gives back) and records a pending
 * withdrawal; `GET /me/withdrawals` lists the caller's own withdrawals, newest first.
 */
module Withdrawals {
  import opened Wrappers
  import opened Sums
  import opened Seqs
  import opened Records

  datatype WithdrawalRequest = WithdrawalRequest(
    amount: Option<real>,
    currency: Option<string>,
    paymentMethod: Option<string>,
    targetAddress: Option<string>)

  const InsufficientProfit := Failure(400, "Insufficient profit balance")

  /** `amount`, `currency`, `method` and `targetAddress` all pass the `!field` guard. */
  predicate WithdrawalComplete(req: WithdrawalRequest) {
    TruthyNumber(req.amount) && TruthyText(req.currency) && TruthyText(req.paymentMethod)
    && TruthyText(req.targetAddress)
  }

  function NewWithdrawal(l: Ledger, owner: Id, req: WithdrawalRequest): Withdrawal
    requires WithdrawalComplete(req)
  {
    Withdrawal(l.nextId, owner, req.amount.value, req.currency.value, req.paymentMethod.value,
               req.targetAddress.value, Pending, None, None, None, None, l.clock)
  }

  /**
   * Creates a withdrawal. `caller` is the user row the authentication step attached
   * to the request; its profit balance is the one checked. A missing field is 400;
   * a balance below the amount is 400; otherwise the caller's row is debited by the
   * amount and a pending withdrawal inserted (an update of a missing row fails, 500).
   */
  function CreateWithdrawal(l: Ledger, caller: User, req: WithdrawalRequest): (r: Reply<Withdrawal>)
    ensures !WithdrawalComplete(req) ==> r == Reply(l, Err(MissingRequiredFields))
    ensures WithdrawalComplete(req) && caller.profitBalance < req.amount.value ==>
              r == Reply(l, Err(InsufficientProfit))
    ensures r.response.Err? ==> r.ledger == l
    ensures r.response.Ok? <==>
              WithdrawalComplete(req) && caller.profitBalance >= req.amount.value && caller.id in UserIds(l.users)
    ensures r.response.Ok? ==>
              var w := r.response.value;
              var i := FindUser(l.users, caller.id).value;
              && w.id == l.nextId
              && w.userId == caller.id
              && w.amount == req.amount.value
              && w.status == Pending
              && w.approvedAt.None?
              && r.ledger == l.(users := AddProfit(l.users, i, -w.amount),
                                withdrawals := l.withdrawals + [w],
                                nextId := l.nextId + 1,
                                clock := l.clock + 1)
              && r.ledger.users[i].profitBalance == l.users[i].profitBalance - w.amount
  {
    if !WithdrawalComplete(req) then Reply(l, Err(MissingRequiredFields))
    else if caller.profitBalance < req.amount.value then Reply(l, Err(InsufficientProfit))
    else
      match FindUser(l.users, caller.id)
      case None => Reply(l, Err(ServerError))
      case Some(i) =>
        var w := NewWithdrawal(l, caller.id, req);
        Reply(l.(users := AddProfit(l.users, i, -w.amount),
                 withdrawals := l.withdrawals + [w],
                 nextId := l.nextId + 1,
                 clock := l.clock + 1),
              Ok(w))
  }

  function OwnedBy(owner: Id): Withdrawal -> bool {
    (w: Withdrawal) => w.userId == owner
  }

  /** The caller's withdrawals, most recent first. */
  function MyWithdrawals(l: Ledger, caller: User): (r: seq<Withdrawal>)
    ensures forall w :: w in r <==> w in l.withdrawals && w.userId == caller.id
  {
    NewestFirst(l.withdrawals, OwnedBy(caller.id))
  }

  lemma MyWithdrawalsNewestFirst(l: Ledger, caller: User)
    requires WithdrawalsValid(l)
    ensures Decreasing(MyWithdrawals(l, caller), WithdrawalStamp)
  {
    NewestFirstIsDescending(l.withdrawals, OwnedBy(caller.id), WithdrawalStamp);
  }

  lemma NewWithdrawalListedFirst(l: Ledger, caller: User, req: WithdrawalRequest)
    requires CreateWithdrawal(l, caller, req).response.Ok?
    ensures var r := CreateWithdrawal(l, caller, req);
      && |MyWithdrawals(r.ledger, caller)| > 0
      && MyWithdrawals(r.ledger, caller)[0] == r.response.value
  {
    var r := CreateWithdrawal(l, caller, req);
    NewestFirstAppendHead(l.withdrawals, r.response.value, OwnedBy(caller.id));
  }

  /**
   * When the attached row is current, a successful withdrawal from a non-negative
   * profit balance leaves it non-negative, and debits no one else.
   */
  lemma CreateWithdrawalKeepsBalanceNonNegative(l: Ledger, k: nat, req: WithdrawalRequest)
    requires UniqueUsers(l.users)
    requires k < |l.users|
    requires l.users[k].profitBalance >= 0.0
    requires CreateWithdrawal(l, l.users[k], req).response.Ok?
    ensures var us := CreateWithdrawal(l, l.users[k], req).ledger.users;
      && us[k].profitBalance >= 0.0
      && us[k].investmentBalance == l.users[k].investmentBalance
      && forall j :: 0 <= j < |l.users| && j != k ==> us[j] == l.users[j]
  {
    FindUserUnique(l.users, k);
  }

  /** The sum of all profit balances drops by exactly the amount withdrawn. */
  lemma CreateWithdrawalDebitsTheSum(l: Ledger, caller: User, req: WithdrawalRequest)
    requires CreateWithdrawal(l, caller, req).response.Ok?
    ensures var r := CreateWithdrawal(l, caller, req);
      && SumOf(r.ledger.users, ProfitOf) == SumOf(l.users, ProfitOf) - r.response.value.amount
      && SumOf(r.ledger.users, InvestmentOf) == SumOf(l.users, InvestmentOf)
  {
    var r := CreateWithdrawal(l, caller, req);
    var i := FindUser(l.users, caller.id).value;
    var a := r.response.value.amount;
    SumOfUpdate(l.users, i, l.users[i].(profitBalance := l.users[i].profitBalance - a), ProfitOf);
    SumOfUpdate(l.users, i, l.users[i].(profitBalance := l.users[i].profitBalance - a), InvestmentOf);
  }

  /**
   * The amount guard lets a negative amount through: such a request raises the
   * caller's profit balance instead of lowering it.
   */
  lemma NegativeAmountRaisesBalance(l: Ledger, k: nat, req: WithdrawalRequest)
    requires UniqueUsers(l.users)
    requires k < |l.users|
    requires WithdrawalComplete(req) && req.amount.value < 0.0
    requires l.users[k].profitBalance >= 0.0
    ensures var r := CreateWithdrawal(l, l.users[k], req);
      && r.response.Ok?
      && r.ledger.users[k].profitBalance > l.users[k].profitBalance
  {
    FindUserUnique(l.users, k);
  }

  /** Creating a withdrawal keeps the schema's integrity rules. */
  lemma CreateWithdrawalKeepsValid(l: Ledger, caller: User, req: WithdrawalRequest)
    requires Valid(l)
    ensures Valid(CreateWithdrawal(l, caller, req).ledger)
  {
    var r := CreateWithdrawal(l, caller, req);
    if r.response.Ok? {
      var l' := r.ledger;
      var i := FindUser(l.users, caller.id).value;
      SameIdsKeepLookups(l.users, l'.users);
      assert UsersValid(l') by {
        forall k | 0 <= k < |l'.users| ensures l'.users[k].id < l'.nextId {
          assert l'.users[k].id == l.users[k].id;
        }
      }
      assert Increasing(l'.withdrawals, WithdrawalStamp) by {
        forall a, b | 0 <= a < b < |l'.withdrawals|
          ensures WithdrawalStamp(l'.withdrawals[a]) < WithdrawalStamp(l'.withdrawals[b])
        {
          assert l'.withdrawals[a] == l.withdrawals[a];
          if b < |l.withdrawals| {
            assert l'.withdrawals[b] == l.withdrawals[b];
          }
        }
      }
      assert WithdrawalsValid(l') by {
        forall k | 0 <= k < |l'.withdrawals|
          ensures l'.withdrawals[k].id < l'.nextId && l'.withdrawals[k].createdAt < l'.clock
          ensures l'.withdrawals[k].userId in UserIds(l'.users)
        {
          if k < |l.withdrawals| {
            assert l'.withdrawals[k] == l.withdrawals[k];
          }
        }
        forall a, b | 0 <= a < b < |l'.withdrawals| ensures l'.withdrawals[a].id != l'.withdrawals[b].id {
          assert l'.withdrawals[a] == l.withdrawals[a];
        }
      }
      assert DepositsValid(l') by {
        forall k | 0 <= k < |l'.deposits| ensures l'.deposits[k].createdAt < l'.clock {
        }
      }
    }
  }
}
