/**
 * The user's deposit routes: `POST /me/deposits` records a pending deposit and moves
 * no money; `GET /me/deposits` lists the caller's own deposits, newest first.
 */
module Deposits {
  import opened Wrappers
  import opened Seqs
  import opened Records

  /** The body of a deposit request; `proofUrl` and `txId` are optional. */
  datatype DepositRequest = DepositRequest(
    amount: Option<real>,
    currency: Option<string>,
    paymentMethod: Option<string>,
    proofUrl: Option<string>,
    txId: Option<string>)

  /** `amount`, `currency` and `method` all pass the `!field` guard. */
  predicate DepositComplete(req: DepositRequest) {
    TruthyNumber(req.amount) && TruthyText(req.currency) && TruthyText(req.paymentMethod)
  }

  /** The row a complete request inserts: pending, unreviewed, stamped with the clock. */
  function NewDeposit(l: Ledger, owner: Id, req: DepositRequest): Deposit
    requires DepositComplete(req)
  {
    Deposit(l.nextId, owner, req.amount.value, req.currency.value, req.paymentMethod.value,
            req.proofUrl, req.txId, Pending, None, None, None, l.clock)
  }

  /**
   * Creates a pending deposit owned by the caller. A request missing a field is
   * refused with 400; an insert whose owner does not exist fails (500). No balance
   * moves: the row only records the claim.
   */
  function CreateDeposit(l: Ledger, caller: User, req: DepositRequest): (r: Reply<Deposit>)
    ensures !DepositComplete(req) ==> r == Reply(l, Err(MissingRequiredFields))
    ensures r.response.Err? ==> r.ledger == l
    ensures r.response.Ok? <==> DepositComplete(req) && caller.id in UserIds(l.users)
    ensures r.response.Ok? ==>
              var d := r.response.value;
              && d.id == l.nextId
              && d.userId == caller.id
              && d.amount == req.amount.value
              && d.status == Pending
              && d.reviewedById.None?
              && d.approvedAt.None?
              && r.ledger == l.(deposits := l.deposits + [d], nextId := l.nextId + 1, clock := l.clock + 1)
  {
    if !DepositComplete(req) then Reply(l, Err(MissingRequiredFields))
    else if caller.id !in UserIds(l.users) then Reply(l, Err(ServerError))
    else
      var d := NewDeposit(l, caller.id, req);
      Reply(l.(deposits := l.deposits + [d], nextId := l.nextId + 1, clock := l.clock + 1), Ok(d))
  }

  function OwnedBy(owner: Id): Deposit -> bool {
    (d: Deposit) => d.userId == owner
  }

  /** The caller's deposits, most recent first. */
  function MyDeposits(l: Ledger, caller: User): (r: seq<Deposit>)
    ensures forall d :: d in r <==> d in l.deposits && d.userId == caller.id
  {
    NewestFirst(l.deposits, OwnedBy(caller.id))
  }

  /** The listing is strictly newest first. */
  lemma MyDepositsNewestFirst(l: Ledger, caller: User)
    requires DepositsValid(l)
    ensures Decreasing(MyDeposits(l, caller), DepositStamp)
  {
    NewestFirstIsDescending(l.deposits, OwnedBy(caller.id), DepositStamp);
  }

  /** A deposit just created heads its owner's listing. */
  lemma NewDepositListedFirst(l: Ledger, caller: User, req: DepositRequest)
    requires CreateDeposit(l, caller, req).response.Ok?
    ensures var r := CreateDeposit(l, caller, req);
      && |MyDeposits(r.ledger, caller)| > 0
      && MyDeposits(r.ledger, caller)[0] == r.response.value
  {
    var r := CreateDeposit(l, caller, req);
    NewestFirstAppendHead(l.deposits, r.response.value, OwnedBy(caller.id));
  }

  /** Creating a deposit changes no balance and keeps the schema's integrity rules. */
  lemma CreateDepositKeepsValid(l: Ledger, caller: User, req: DepositRequest)
    requires Valid(l)
    ensures Valid(CreateDeposit(l, caller, req).ledger)
    ensures CreateDeposit(l, caller, req).ledger.users == l.users
  {
    var r := CreateDeposit(l, caller, req);
    if r.response.Ok? {
      var l' := r.ledger;
      var d := r.response.value;
      assert Increasing(l'.deposits, DepositStamp) by {
        forall i, j | 0 <= i < j < |l'.deposits| ensures DepositStamp(l'.deposits[i]) < DepositStamp(l'.deposits[j]) {
          if j == |l.deposits| {
            assert l'.deposits[i] == l.deposits[i];
          } else {
            assert l'.deposits[i] == l.deposits[i] && l'.deposits[j] == l.deposits[j];
          }
        }
      }
      assert DepositsValid(l') by {
        forall k | 0 <= k < |l'.deposits|
          ensures l'.deposits[k].id < l'.nextId && l'.deposits[k].createdAt < l'.clock
          ensures l'.deposits[k].userId in UserIds(l'.users)
        {
          if k < |l.deposits| {
            assert l'.deposits[k] == l.deposits[k];
          }
        }
        forall i, j | 0 <= i < j < |l'.deposits| ensures l'.deposits[i].id != l'.deposits[j].id {
          assert l'.deposits[i] == l.deposits[i];
        }
      }
    }
  }
}
