/**
 * The admin withdrawal routes: the pending list, approval (status, transfer
 * reference, note and reviewer recorded; the money already left at creation) and
 * rejection (in one transaction the withdrawal is marked rejected and the owner's
 * profit balance refunded by the amount).
 *
 * The rejection's audit entry is written through the global client between the two
 * updates of the transaction, so it survives a rollback of that transaction.
 */
module WithdrawalReview {
  import opened Wrappers
  import opened Sums
  import opened Seqs
  import opened Records

  const WithdrawalNotFound := Failure(404, "Withdrawal not found")
  const WithdrawalProcessed := Failure(400, "Withdrawal already processed")

  function IsPendingWithdrawal(w: Withdrawal): bool {
    w.status == Pending
  }

  /** The pending withdrawals, most recent first. */
  function PendingWithdrawals(l: Ledger): (r: seq<Withdrawal>)
    ensures forall w :: w in r <==> w in l.withdrawals && w.status == Pending
  {
    NewestFirst(l.withdrawals, IsPendingWithdrawal)
  }

  lemma PendingWithdrawalsNewestFirst(l: Ledger)
    requires WithdrawalsValid(l)
    ensures Decreasing(PendingWithdrawals(l), WithdrawalStamp)
  {
    NewestFirstIsDescending(l.withdrawals, IsPendingWithdrawal, WithdrawalStamp);
  }

  /** The checks both reviews make first: the withdrawal exists, and is still pending. */
  function Reviewable(l: Ledger, id: Id): (r: Result<nat, Failure>)
    ensures r.Ok? <==> FindWithdrawal(l.withdrawals, id).Some?
                       && l.withdrawals[FindWithdrawal(l.withdrawals, id).value].status == Pending
    ensures r.Ok? ==> r.value == FindWithdrawal(l.withdrawals, id).value
    ensures FindWithdrawal(l.withdrawals, id).None? ==> r == Err(WithdrawalNotFound)
    ensures r.Err? && FindWithdrawal(l.withdrawals, id).Some? ==> r == Err(WithdrawalProcessed)
  {
    match FindWithdrawal(l.withdrawals, id)
    case None => Err(WithdrawalNotFound)
    case Some(i) => if l.withdrawals[i].status != Pending then Err(WithdrawalProcessed) else Ok(i)
  }

  /**
   * Approves a pending withdrawal: records the status, the transfer reference and
   * the note (each left as it was when not given) and the reviewer. No balance moves.
   */
  function ApproveWithdrawal(l: Ledger, admin: Id, id: Id, txId: Option<string>, note: Option<string>): (r: Reply<string>)
    ensures r.response.Ok? <==> Reviewable(l, id).Ok?
    ensures r.response.Err? ==> r.ledger == l && r.response == Err(Reviewable(l, id).error)
    ensures r.response.Ok? ==>
              var i := Reviewable(l, id).value;
              var w := l.withdrawals[i];
              && r.ledger.withdrawals
                 == l.withdrawals[i := w.(status := Approved, txId := Overwrite(w.txId, txId),
                                          statusReason := Overwrite(w.statusReason, note), reviewedById := Some(admin),
                                          approvedAt := Some(l.clock))]
              && r.ledger.audit == l.audit + [AuditEntry(admin, WithdrawalApproved, "withdrawal", w.id, TxMeta(txId))]
              && r.ledger == l.(withdrawals := r.ledger.withdrawals, audit := r.ledger.audit)
              && r.response.value == "Withdrawal approved"
  {
    match Reviewable(l, id)
    case Err(e) => Reply(l, Err(e))
    case Ok(i) =>
      var w := l.withdrawals[i];
      Reply(l.(withdrawals := l.withdrawals[i := w.(status := Approved, txId := Overwrite(w.txId, txId),
                                                    statusReason := Overwrite(w.statusReason, note),
                                                    reviewedById := Some(admin), approvedAt := Some(l.clock))],
               audit := l.audit + [AuditEntry(admin, WithdrawalApproved, "withdrawal", w.id, TxMeta(txId))]),
            Ok("Withdrawal approved"))
  }

  function RejectionAudit(admin: Id, w: Withdrawal, reason: Option<string>): AuditEntry {
    AuditEntry(admin, WithdrawalRejected, "withdrawal", w.id, ReasonMeta(reason))
  }

  /**
   * Rejects a pending withdrawal and refunds its amount to the owner's profit
   * balance, in one transaction. If the owner does not exist the refund fails, the
   * transaction rolls back the status change, and only the audit entry remains (500).
   */
  function RejectWithdrawal(l: Ledger, admin: Id, id: Id, reason: Option<string>): (r: Reply<string>)
    ensures r.response.Ok? <==>
              Reviewable(l, id).Ok? && FindUser(l.users, l.withdrawals[Reviewable(l, id).value].userId).Some?
    ensures Reviewable(l, id).Err? ==> r == Reply(l, Err(Reviewable(l, id).error))
    ensures Reviewable(l, id).Ok? && r.response.Err? ==>
              && r.response == Err(ServerError)
              && r.ledger.audit == l.audit + [RejectionAudit(admin, l.withdrawals[Reviewable(l, id).value], reason)]
    ensures r.response.Err? ==>
              && r.ledger.users == l.users
              && r.ledger.withdrawals == l.withdrawals
              && r.ledger == l.(audit := r.ledger.audit)
    ensures r.response.Ok? ==>
              && Reviewable(l, id).Ok?
              && var i := Reviewable(l, id).value;
                 var w := l.withdrawals[i];
                 && FindUser(l.users, w.userId).Some?
                 && var j := FindUser(l.users, w.userId).value;
                    && r.ledger.withdrawals
                       == l.withdrawals[i := w.(status := Rejected, statusReason := Overwrite(w.statusReason, reason),
                                                reviewedById := Some(admin))]
                    && r.ledger.users == AddProfit(l.users, j, w.amount)
                    && r.ledger.audit == l.audit + [RejectionAudit(admin, w, reason)]
                    && r.ledger == l.(withdrawals := r.ledger.withdrawals, users := r.ledger.users, audit := r.ledger.audit)
                    && r.response.value == "Withdrawal rejected and profit refunded"
  {
    match Reviewable(l, id)
    case Err(e) => Reply(l, Err(e))
    case Ok(i) =>
      var w := l.withdrawals[i];
      var entry := RejectionAudit(admin, w, reason);
      match FindUser(l.users, w.userId)
      case None =>
        // the audit write, outside the transaction, outlives the rollback
        Reply(l.(audit := l.audit + [entry]), Err(ServerError))
      case Some(j) =>
        Reply(l.(withdrawals := l.withdrawals[i := w.(status := Rejected, statusReason := Overwrite(w.statusReason, reason),
                                                      reviewedById := Some(admin))],
                 users := AddProfit(l.users, j, w.amount),
                 audit := l.audit + [entry]),
              Ok("Withdrawal rejected and profit refunded"))
  }

  /** A rejection whose owner is missing fails, yet leaves its audit entry behind. */
  lemma RejectWithMissingOwnerLeavesAudit(l: Ledger, admin: Id, id: Id, reason: Option<string>)
    requires Reviewable(l, id).Ok?
    requires l.withdrawals[Reviewable(l, id).value].userId !in UserIds(l.users)
    ensures var r := RejectWithdrawal(l, admin, id, reason);
      && r.response == Err(ServerError)
      && r.ledger == l.(audit := l.audit + [RejectionAudit(admin, l.withdrawals[Reviewable(l, id).value], reason)])
  {
  }

  /** Rejection refunds exactly the owner's profit balance; investment balances and other users are untouched. */
  lemma RejectRefundsOnlyTheOwner(l: Ledger, admin: Id, id: Id, reason: Option<string>)
    requires UniqueUsers(l.users)
    requires RejectWithdrawal(l, admin, id, reason).response.Ok?
    ensures var w := l.withdrawals[FindWithdrawal(l.withdrawals, id).value];
      var us := RejectWithdrawal(l, admin, id, reason).ledger.users;
      && |us| == |l.users|
      && forall k :: 0 <= k < |l.users| ==>
           && us[k].investmentBalance == l.users[k].investmentBalance
           && us[k].profitBalance == l.users[k].profitBalance + (if l.users[k].id == w.userId then w.amount else 0.0)
           && us[k].id == l.users[k].id
  {
    var w := l.withdrawals[FindWithdrawal(l.withdrawals, id).value];
    var j := FindUser(l.users, w.userId).value;
    forall k | 0 <= k < |l.users| && k != j ensures l.users[k].id != w.userId {
      assert l.users[j].id == w.userId;
    }
  }

  /** Rejection raises the sum of profit balances by the amount; approval moves no balance. */
  lemma ReviewMovesTheProfitSum(l: Ledger, admin: Id, id: Id, reason: Option<string>, txId: Option<string>, note: Option<string>)
    ensures ApproveWithdrawal(l, admin, id, txId, note).ledger.users == l.users
    ensures var r := RejectWithdrawal(l, admin, id, reason);
      r.response.Ok? ==>
        && SumOf(r.ledger.users, ProfitOf) == SumOf(l.users, ProfitOf) + l.withdrawals[FindWithdrawal(l.withdrawals, id).value].amount
        && SumOf(r.ledger.users, InvestmentOf) == SumOf(l.users, InvestmentOf)
  {
    var r := RejectWithdrawal(l, admin, id, reason);
    if r.response.Ok? {
      var w := l.withdrawals[FindWithdrawal(l.withdrawals, id).value];
      var j := FindUser(l.users, w.userId).value;
      var u := l.users[j].(profitBalance := l.users[j].profitBalance + w.amount);
      SumOfUpdate(l.users, j, u, ProfitOf);
      SumOfUpdate(l.users, j, u, InvestmentOf);
    }
  }

  /** In a valid ledger the approval stamp comes after the withdrawal's creation. */
  lemma ApprovalFollowsCreation(l: Ledger, admin: Id, id: Id, txId: Option<string>, note: Option<string>)
    requires Valid(l)
    requires ApproveWithdrawal(l, admin, id, txId, note).response.Ok?
    ensures var w := ApproveWithdrawal(l, admin, id, txId, note).ledger.withdrawals[FindWithdrawal(l.withdrawals, id).value];
      w.approvedAt.Some? && w.createdAt < w.approvedAt.value
  {
  }

  /** A reviewed withdrawal is terminal: a second review is refused, so nothing is refunded twice. */
  lemma ReviewIsTerminal(l: Ledger, admin: Id, id: Id, reason: Option<string>, txId: Option<string>, note: Option<string>,
                         admin2: Id, reason2: Option<string>, txId2: Option<string>, note2: Option<string>)
    requires ApproveWithdrawal(l, admin, id, txId, note).response.Ok? || RejectWithdrawal(l, admin, id, reason).response.Ok?
    ensures var l' := if ApproveWithdrawal(l, admin, id, txId, note).response.Ok?
                      then ApproveWithdrawal(l, admin, id, txId, note).ledger
                      else RejectWithdrawal(l, admin, id, reason).ledger;
      && ApproveWithdrawal(l', admin2, id, txId2, note2) == Reply(l', Err(WithdrawalProcessed))
      && RejectWithdrawal(l', admin2, id, reason2) == Reply(l', Err(WithdrawalProcessed))
  {
    var i := FindWithdrawal(l.withdrawals, id).value;
    var l' := if ApproveWithdrawal(l, admin, id, txId, note).response.Ok?
              then ApproveWithdrawal(l, admin, id, txId, note).ledger
              else RejectWithdrawal(l, admin, id, reason).ledger;
    assert |l'.withdrawals| == |l.withdrawals|;
    forall k | 0 <= k < |l'.withdrawals| ensures l'.withdrawals[k].id == l.withdrawals[k].id {
    }
    assert FindWithdrawal(l'.withdrawals, id) == Some(i);
  }

  /** Changing a withdrawal's review columns in place, and balances only, keeps validity. */
  lemma WithdrawalUpdateKeepsValid(l: Ledger, l': Ledger)
    requires Valid(l)
    requires SameIds(l.users, l'.users)
    requires |l'.withdrawals| == |l.withdrawals|
    requires forall k :: 0 <= k < |l.withdrawals| ==>
               && l'.withdrawals[k].id == l.withdrawals[k].id
               && l'.withdrawals[k].userId == l.withdrawals[k].userId
               && l'.withdrawals[k].createdAt == l.withdrawals[k].createdAt
    requires l'.deposits == l.deposits && l'.distributions == l.distributions && l'.payouts == l.payouts
    requires l'.nextId == l.nextId && l'.clock == l.clock
    ensures Valid(l')
  {
    SameIdsKeepLookups(l.users, l'.users);
    assert UsersValid(l') by {
      forall k | 0 <= k < |l'.users| ensures l'.users[k].id < l'.nextId {
        assert l'.users[k].id == l.users[k].id;
      }
    }
    assert Increasing(l'.withdrawals, WithdrawalStamp) by {
      forall a, b | 0 <= a < b < |l'.withdrawals|
        ensures WithdrawalStamp(l'.withdrawals[a]) < WithdrawalStamp(l'.withdrawals[b])
      {
        assert WithdrawalStamp(l.withdrawals[a]) < WithdrawalStamp(l.withdrawals[b]);
      }
    }
  }

  /** Both reviews, committed or not, keep the schema's integrity rules. */
  lemma ReviewKeepsValid(l: Ledger, admin: Id, id: Id, reason: Option<string>, txId: Option<string>, note: Option<string>)
    requires Valid(l)
    ensures Valid(ApproveWithdrawal(l, admin, id, txId, note).ledger)
    ensures Valid(RejectWithdrawal(l, admin, id, reason).ledger)
  {
    var a := ApproveWithdrawal(l, admin, id, txId, note);
    if a.response.Ok? {
      WithdrawalUpdateKeepsValid(l, a.ledger);
    }
    var r := RejectWithdrawal(l, admin, id, reason);
    if r.response.Ok? {
      WithdrawalUpdateKeepsValid(l, r.ledger);
    } else {
      ValidWithoutTableChange(l, r.ledger);
    }
  }
}
