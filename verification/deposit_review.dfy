/**
 * The admin deposit routes: the pending list, approval (in one transaction, the
 * deposit is marked approved and the owner's investment balance raised by its
 * amount) and rejection (the deposit is marked rejected; no money moves). Each
 * review appends one audit entry after the update; a deposit leaves `Pending` once.
 */
module DepositReview {
  import opened Wrappers
  import opened Sums
  import opened Seqs
  import opened Records

  const DepositNotFound := Failure(404, "Deposit not found")
  const DepositProcessed := Failure(400, "Deposit already processed")

  function IsPendingDeposit(d: Deposit): bool {
    d.status == Pending
  }

  /** The pending deposits, most recent first. */
  function PendingDeposits(l: Ledger): (r: seq<Deposit>)
    ensures forall d :: d in r <==> d in l.deposits && d.status == Pending
  {
    NewestFirst(l.deposits, IsPendingDeposit)
  }

  lemma PendingDepositsNewestFirst(l: Ledger)
    requires DepositsValid(l)
    ensures Decreasing(PendingDeposits(l), DepositStamp)
  {
    NewestFirstIsDescending(l.deposits, IsPendingDeposit, DepositStamp);
  }

  /** The checks both reviews make first: the deposit exists, and is still pending. */
  function Reviewable(l: Ledger, id: Id): (r: Result<nat, Failure>)
    ensures r.Ok? <==> FindDeposit(l.deposits, id).Some? && l.deposits[FindDeposit(l.deposits, id).value].status == Pending
    ensures r.Ok? ==> r.value == FindDeposit(l.deposits, id).value
    ensures FindDeposit(l.deposits, id).None? ==> r == Err(DepositNotFound)
    ensures r.Err? && FindDeposit(l.deposits, id).Some? ==> r == Err(DepositProcessed)
  {
    match FindDeposit(l.deposits, id)
    case None => Err(DepositNotFound)
    case Some(i) => if l.deposits[i].status != Pending then Err(DepositProcessed) else Ok(i)
  }

  /**
   * Approves a pending deposit: the status and the reviewer change and the owner's
   * investment balance rises by the amount, together; an owner that does not exist
   * makes the transaction fail (500) with nothing written. The audit entry follows.
   */
  function ApproveDeposit(l: Ledger, admin: Id, id: Id): (r: Reply<string>)
    ensures r.response.Ok? <==>
              Reviewable(l, id).Ok? && FindUser(l.users, l.deposits[Reviewable(l, id).value].userId).Some?
    ensures r.response.Err? ==> r.ledger == l
    ensures Reviewable(l, id).Err? ==> r == Reply(l, Err(Reviewable(l, id).error))
    ensures Reviewable(l, id).Ok? && r.response.Err? ==> r.response == Err(ServerError)
    ensures r.response.Ok? ==>
              && Reviewable(l, id).Ok?
              && var i := Reviewable(l, id).value;
                 var d := l.deposits[i];
                 && FindUser(l.users, d.userId).Some?
                 && var j := FindUser(l.users, d.userId).value;
                    && r.ledger.deposits == l.deposits[i := d.(status := Approved, reviewedById := Some(admin), approvedAt := Some(l.clock))]
                    && r.ledger.users == AddInvestment(l.users, j, d.amount)
                    && r.ledger.audit == l.audit + [AuditEntry(admin, DepositApproved, "deposit", d.id, AmountMeta(d.amount))]
                    && r.ledger == l.(deposits := r.ledger.deposits, users := r.ledger.users, audit := r.ledger.audit)
                    && r.response.value == "Deposit approved"
  {
    match Reviewable(l, id)
    case Err(e) => Reply(l, Err(e))
    case Ok(i) =>
      var d := l.deposits[i];
      match FindUser(l.users, d.userId)
      case None => Reply(l, Err(ServerError))
      case Some(j) =>
        Reply(l.(deposits := l.deposits[i := d.(status := Approved, reviewedById := Some(admin), approvedAt := Some(l.clock))],
                 users := AddInvestment(l.users, j, d.amount),
                 audit := l.audit + [AuditEntry(admin, DepositApproved, "deposit", d.id, AmountMeta(d.amount))]),
              Ok("Deposit approved"))
  }

  /**
   * Rejects a pending deposit: the status, the reason (left as it was when none is
   * given) and the reviewer change; no balance moves. The audit entry follows.
   */
  function RejectDeposit(l: Ledger, admin: Id, id: Id, reason: Option<string>): (r: Reply<string>)
    ensures r.response.Ok? <==> Reviewable(l, id).Ok?
    ensures r.response.Err? ==> r.ledger == l && r.response == Err(Reviewable(l, id).error)
    ensures r.response.Ok? ==>
              var i := Reviewable(l, id).value;
              var d := l.deposits[i];
              && r.ledger.deposits == l.deposits[i := d.(status := Rejected, statusReason := Overwrite(d.statusReason, reason),
                                                         reviewedById := Some(admin))]
              && r.ledger.audit == l.audit + [AuditEntry(admin, DepositRejected, "deposit", d.id, ReasonMeta(reason))]
              && r.ledger == l.(deposits := r.ledger.deposits, audit := r.ledger.audit)
              && r.response.value == "Deposit rejected"
  {
    match Reviewable(l, id)
    case Err(e) => Reply(l, Err(e))
    case Ok(i) =>
      var d := l.deposits[i];
      Reply(l.(deposits := l.deposits[i := d.(status := Rejected, statusReason := Overwrite(d.statusReason, reason),
                                              reviewedById := Some(admin))],
               audit := l.audit + [AuditEntry(admin, DepositRejected, "deposit", d.id, ReasonMeta(reason))]),
            Ok("Deposit rejected"))
  }

  /**
   * Approval credits exactly the owner's investment balance by the amount; no
   * profit balance and no other user changes.
   */
  lemma ApproveCreditsOnlyTheOwner(l: Ledger, admin: Id, id: Id)
    requires UniqueUsers(l.users)
    requires ApproveDeposit(l, admin, id).response.Ok?
    ensures var d := l.deposits[FindDeposit(l.deposits, id).value];
      var us := ApproveDeposit(l, admin, id).ledger.users;
      && |us| == |l.users|
      && forall k :: 0 <= k < |l.users| ==>
           && us[k].profitBalance == l.users[k].profitBalance
           && us[k].investmentBalance == l.users[k].investmentBalance + (if l.users[k].id == d.userId then d.amount else 0.0)
           && us[k].id == l.users[k].id
  {
    var d := l.deposits[FindDeposit(l.deposits, id).value];
    var j := FindUser(l.users, d.userId).value;
    forall k | 0 <= k < |l.users| && k != j ensures l.users[k].id != d.userId {
      assert l.users[j].id == d.userId;
    }
  }

  /** Approval raises the sum of investment balances by the amount and leaves the profit sum alone. */
  lemma ApproveRaisesInvestmentSum(l: Ledger, admin: Id, id: Id)
    requires ApproveDeposit(l, admin, id).response.Ok?
    ensures var d := l.deposits[FindDeposit(l.deposits, id).value];
      var us := ApproveDeposit(l, admin, id).ledger.users;
      && SumOf(us, InvestmentOf) == SumOf(l.users, InvestmentOf) + d.amount
      && SumOf(us, ProfitOf) == SumOf(l.users, ProfitOf)
  {
    var d := l.deposits[FindDeposit(l.deposits, id).value];
    var j := FindUser(l.users, d.userId).value;
    var u := l.users[j].(investmentBalance := l.users[j].investmentBalance + d.amount);
    SumOfUpdate(l.users, j, u, InvestmentOf);
    SumOfUpdate(l.users, j, u, ProfitOf);
  }

  /** In a valid ledger the approval stamp comes after the deposit's creation. */
  lemma ApprovalFollowsCreation(l: Ledger, admin: Id, id: Id)
    requires Valid(l)
    requires ApproveDeposit(l, admin, id).response.Ok?
    ensures var d := ApproveDeposit(l, admin, id).ledger.deposits[FindDeposit(l.deposits, id).value];
      d.approvedAt.Some? && d.createdAt < d.approvedAt.value
  {
  }

  /** A reviewed deposit is terminal: a second approval or rejection is refused with no change. */
  lemma ReviewIsTerminal(l: Ledger, admin: Id, id: Id, reason: Option<string>, admin2: Id, reason2: Option<string>)
    requires ApproveDeposit(l, admin, id).response.Ok? || RejectDeposit(l, admin, id, reason).response.Ok?
    ensures var l' := if ApproveDeposit(l, admin, id).response.Ok? then ApproveDeposit(l, admin, id).ledger
                      else RejectDeposit(l, admin, id, reason).ledger;
      && ApproveDeposit(l', admin2, id) == Reply(l', Err(DepositProcessed))
      && RejectDeposit(l', admin2, id, reason2) == Reply(l', Err(DepositProcessed))
  {
    var i := FindDeposit(l.deposits, id).value;
    var l' := if ApproveDeposit(l, admin, id).response.Ok? then ApproveDeposit(l, admin, id).ledger
              else RejectDeposit(l, admin, id, reason).ledger;
    assert |l'.deposits| == |l.deposits|;
    forall k | 0 <= k < |l'.deposits| ensures l'.deposits[k].id == l.deposits[k].id {
    }
    assert FindDeposit(l'.deposits, id) == Some(i);
  }

  /** Both reviews keep the schema's integrity rules. */
  lemma ReviewKeepsValid(l: Ledger, admin: Id, id: Id, reason: Option<string>)
    requires Valid(l)
    ensures Valid(ApproveDeposit(l, admin, id).ledger)
    ensures Valid(RejectDeposit(l, admin, id, reason).ledger)
  {
    var a := ApproveDeposit(l, admin, id);
    if a.response.Ok? {
      var d := l.deposits[FindDeposit(l.deposits, id).value];
      var j := FindUser(l.users, d.userId).value;
      DepositUpdateKeepsValid(l, a.ledger);
    }
    var r := RejectDeposit(l, admin, id, reason);
    if r.response.Ok? {
      DepositUpdateKeepsValid(l, r.ledger);
    }
  }

  /** Changing a deposit's review columns in place, and balances only, keeps validity. */
  lemma DepositUpdateKeepsValid(l: Ledger, l': Ledger)
    requires Valid(l)
    requires SameIds(l.users, l'.users)
    requires |l'.deposits| == |l.deposits|
    requires forall k :: 0 <= k < |l.deposits| ==>
               && l'.deposits[k].id == l.deposits[k].id
               && l'.deposits[k].userId == l.deposits[k].userId
               && l'.deposits[k].createdAt == l.deposits[k].createdAt
    requires l'.withdrawals == l.withdrawals && l'.distributions == l.distributions && l'.payouts == l.payouts
    requires l'.nextId == l.nextId && l'.clock == l.clock
    ensures Valid(l')
  {
    SameIdsKeepLookups(l.users, l'.users);
    assert UsersValid(l') by {
      forall k | 0 <= k < |l'.users| ensures l'.users[k].id < l'.nextId {
        assert l'.users[k].id == l.users[k].id;
      }
    }
    assert Increasing(l'.deposits, DepositStamp) by {
      forall a, b | 0 <= a < b < |l'.deposits| ensures DepositStamp(l'.deposits[a]) < DepositStamp(l'.deposits[b]) {
        assert DepositStamp(l.deposits[a]) < DepositStamp(l.deposits[b]);
      }
    }
  }
}
