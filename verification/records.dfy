/**
 * The ledger's data model: the rows of the database the route handlers read and
 * write, the audit trail, the error replies, and the integrity rules the schema
 * keeps (unique keys, foreign keys, creation order).
 *
 * Tables are sequences in insertion order. Row ids come from one counter,
 * `nextId`, and creation times from a logical clock, `clock`, that the ledger
 * advances on every deposit or withdrawal insert, so creation order and
 * `createdAt` order agree. An approval stamps `approvedAt` with the current
 * reading of the clock without advancing it.
 */
module Records {
  import opened Wrappers
  import opened Seqs

  type Id = nat

  datatype Role = Client | Admin | SuperAdmin

  /** The review state of a deposit or withdrawal: `Pending` moves once, to a terminal state. */
  datatype Status = Pending | Approved | Rejected

  datatype User = User(
    id: Id,
    clerkId: string,
    email: Option<string>,
    role: Role,
    investmentBalance: real,
    profitBalance: real)

  datatype Deposit = Deposit(
    id: Id,
    userId: Id,
    amount: real,
    currency: string,
    paymentMethod: string,
    proofUrl: Option<string>,
    txId: Option<string>,
    status: Status,
    statusReason: Option<string>,
    reviewedById: Option<Id>,
    approvedAt: Option<nat>,
    createdAt: nat)

  datatype Withdrawal = Withdrawal(
    id: Id,
    userId: Id,
    amount: real,
    currency: string,
    paymentMethod: string,
    targetAddress: string,
    status: Status,
    txId: Option<string>,
    statusReason: Option<string>,
    reviewedById: Option<Id>,
    approvedAt: Option<nat>,
    createdAt: nat)

  /** One profit distribution event; `declaredDate` is a timestamp in milliseconds. */
  datatype Distribution = Distribution(
    id: Id,
    declaredProfit: real,
    distributionPercent: real,
    declaredDate: nat,
    investmentPool: real,
    totalDistributed: real,
    recipientsCount: nat,
    createdById: Id,
    status: string)

  /** One user's share of one distribution. */
  datatype Payout = Payout(
    distributionId: Id,
    userId: Id,
    investmentSnapshot: real,
    shareAmount: real)

  datatype Action =
    | DepositApproved
    | DepositRejected
    | WithdrawalApproved
    | WithdrawalRejected
    | ProfitDistributed

  /** The free-form metadata each audited action records. */
  datatype Meta =
    | AmountMeta(amount: real)
    | ReasonMeta(reason: Option<string>)
    | TxMeta(txId: Option<string>)
    | DistributionMeta(recipients: nat, totalDistributed: real)

  datatype AuditEntry = AuditEntry(
    actorId: Id,
    action: Action,
    entityType: string,
    entityId: Id,
    meta: Meta)

  datatype Ledger = Ledger(
    users: seq<User>,
    deposits: seq<Deposit>,
    withdrawals: seq<Withdrawal>,
    distributions: seq<Distribution>,
    payouts: seq<Payout>,
    audit: seq<AuditEntry>,
    nextId: nat,
    clock: nat)

  /** An error reply: the HTTP status and the message of the JSON body. */
  datatype Failure = Failure(status: nat, message: string)

  /**
   * What a handler leaves behind: the ledger after the request, and the response.
   * An error reply usually carries the ledger it was given; it does not when an
   * audit write, made outside a transaction, outlives that transaction's rollback.
   */
  datatype Reply<T> = Reply(ledger: Ledger, response: Result<T, Failure>)

  /** The reply of every handler's catch block. */
  const ServerError := Failure(500, "Something went wrong")

  /** The reply to a request body missing a required field. */
  const MissingRequiredFields := Failure(400, "Missing required fields")

  /** A numeric request field that passes `!field`: present and not 0. */
  predicate TruthyNumber(v: Option<real>) {
    v.Some? && v.value != 0.0
  }

  /** A string request field that passes `!field`: present and not empty. */
  predicate TruthyText(v: Option<string>) {
    v.Some? && v.value != ""
  }

  /** A timestamp request field that passes `!field`: present and not 0. */
  predicate TruthyDate(v: Option<nat>) {
    v.Some? && v.value != 0
  }

  /** A column after an update that passes `given`: an absent (undefined) value leaves the column as it was. */
  function Overwrite<T>(current: Option<T>, given: Option<T>): Option<T> {
    if given.Some? then given else current
  }

  function InvestmentOf(u: User): real {
    u.investmentBalance
  }

  function ProfitOf(u: User): real {
    u.profitBalance
  }

  function DepositStamp(d: Deposit): int {
    d.createdAt
  }

  function WithdrawalStamp(w: Withdrawal): int {
    w.createdAt
  }

  /** The set of user ids, the key set of the user table. */
  function UserIds(us: seq<User>): set<Id> {
    set k | 0 <= k < |us| :: us[k].id
  }

  /** The row of the user with `id` (`findUnique` / `update where id`). */
  function FindUser(us: seq<User>, id: Id): (r: Option<nat>)
    ensures r.Some? ==> r.value < |us| && us[r.value].id == id
    ensures r.Some? ==> forall k :: 0 <= k < r.value ==> us[k].id != id
    ensures r.None? ==> forall k :: 0 <= k < |us| ==> us[k].id != id
    ensures r.Some? <==> id in UserIds(us)
  {
    IndexWhere(us, (u: User) => u.id == id)
  }

  /** The row of the user whose external identity is `clerkId`. */
  function FindClerk(us: seq<User>, clerkId: string): (r: Option<nat>)
    ensures r.Some? ==> r.value < |us| && us[r.value].clerkId == clerkId
    ensures r.None? ==> forall k :: 0 <= k < |us| ==> us[k].clerkId != clerkId
  {
    IndexWhere(us, (u: User) => u.clerkId == clerkId)
  }

  function FindDeposit(ds: seq<Deposit>, id: Id): (r: Option<nat>)
    ensures r.Some? ==> r.value < |ds| && ds[r.value].id == id
    ensures r.Some? ==> forall k :: 0 <= k < r.value ==> ds[k].id != id
    ensures r.None? ==> forall k :: 0 <= k < |ds| ==> ds[k].id != id
  {
    IndexWhere(ds, (d: Deposit) => d.id == id)
  }

  function FindWithdrawal(ws: seq<Withdrawal>, id: Id): (r: Option<nat>)
    ensures r.Some? ==> r.value < |ws| && ws[r.value].id == id
    ensures r.Some? ==> forall k :: 0 <= k < r.value ==> ws[k].id != id
    ensures r.None? ==> forall k :: 0 <= k < |ws| ==> ws[k].id != id
  {
    IndexWhere(ws, (w: Withdrawal) => w.id == id)
  }

  function DistributionIds(ds: seq<Distribution>): set<Id> {
    set k | 0 <= k < |ds| :: ds[k].id
  }

  /** The user table with row `i`'s profit balance moved by `delta` (`profitBalance: { increment }`). */
  function AddProfit(us: seq<User>, i: nat, delta: real): (r: seq<User>)
    requires i < |us|
    ensures |r| == |us|
    ensures r[i].profitBalance == us[i].profitBalance + delta
    ensures forall k :: 0 <= k < |us| && k != i ==> r[k] == us[k]
    ensures SameIds(us, r)
  {
    us[i := us[i].(profitBalance := us[i].profitBalance + delta)]
  }

  /** The user table with row `i`'s investment balance moved by `delta` (`investmentBalance: { increment }`). */
  function AddInvestment(us: seq<User>, i: nat, delta: real): (r: seq<User>)
    requires i < |us|
    ensures |r| == |us|
    ensures r[i].investmentBalance == us[i].investmentBalance + delta
    ensures forall k :: 0 <= k < |us| && k != i ==> r[k] == us[k]
    ensures SameIds(us, r)
  {
    us[i := us[i].(investmentBalance := us[i].investmentBalance + delta)]
  }

  /** Two user tables hold the same rows' keys in the same places. */
  ghost predicate SameIds(us: seq<User>, vs: seq<User>) {
    |us| == |vs| && forall k :: 0 <= k < |us| ==> us[k].id == vs[k].id && us[k].clerkId == vs[k].clerkId
  }

  ghost predicate UniqueUsers(us: seq<User>) {
    forall i, j :: 0 <= i < j < |us| ==> us[i].id != us[j].id && us[i].clerkId != us[j].clerkId
  }

  /** Primary key `id`, unique `clerkId`, ids drawn from the counter. */
  ghost predicate UsersValid(l: Ledger) {
    && UniqueUsers(l.users)
    && forall k :: 0 <= k < |l.users| ==> l.users[k].id < l.nextId
  }

  /** Primary key, creation order, and the foreign key to the owner. */
  ghost predicate DepositsValid(l: Ledger) {
    && Increasing(l.deposits, DepositStamp)
    && (forall i, j :: 0 <= i < j < |l.deposits| ==> l.deposits[i].id != l.deposits[j].id)
    && forall k :: 0 <= k < |l.deposits| ==>
         && l.deposits[k].id < l.nextId
         && l.deposits[k].createdAt < l.clock
         && l.deposits[k].userId in UserIds(l.users)
  }

  ghost predicate WithdrawalsValid(l: Ledger) {
    && Increasing(l.withdrawals, WithdrawalStamp)
    && (forall i, j :: 0 <= i < j < |l.withdrawals| ==> l.withdrawals[i].id != l.withdrawals[j].id)
    && forall k :: 0 <= k < |l.withdrawals| ==>
         && l.withdrawals[k].id < l.nextId
         && l.withdrawals[k].createdAt < l.clock
         && l.withdrawals[k].userId in UserIds(l.users)
  }

  /** Distributions keyed by id and created by a user; payouts tied to a distribution and a user. */
  ghost predicate DistributionsValid(l: Ledger) {
    && (forall i, j :: 0 <= i < j < |l.distributions| ==> l.distributions[i].id != l.distributions[j].id)
    && (forall k :: 0 <= k < |l.distributions| ==>
          l.distributions[k].id < l.nextId && l.distributions[k].createdById in UserIds(l.users))
    && forall k :: 0 <= k < |l.payouts| ==>
         l.payouts[k].distributionId in DistributionIds(l.distributions) && l.payouts[k].userId in UserIds(l.users)
  }

  /** The integrity rules of the database schema. */
  ghost predicate Valid(l: Ledger) {
    UsersValid(l) && DepositsValid(l) && WithdrawalsValid(l) && DistributionsValid(l)
  }

  /** Validity depends only on the tables, the counter and the clock; the audit trail is free. */
  lemma ValidWithoutTableChange(l: Ledger, l': Ledger)
    requires Valid(l)
    requires l'.users == l.users && l'.deposits == l.deposits && l'.withdrawals == l.withdrawals
    requires l'.distributions == l.distributions && l'.payouts == l.payouts
    requires l'.nextId >= l.nextId && l'.clock >= l.clock
    ensures Valid(l')
  {
  }

  /** Under unique keys, the lookup finds the one row that holds the id. */
  lemma FindUserUnique(us: seq<User>, k: nat)
    requires UniqueUsers(us)
    requires k < |us|
    ensures FindUser(us, us[k].id) == Some(k)
  {
  }

  /** Balance updates keep every key, so lookups and key sets are unchanged. */
  lemma SameIdsKeepLookups(us: seq<User>, vs: seq<User>)
    requires SameIds(us, vs)
    ensures UserIds(vs) == UserIds(us)
    ensures forall id :: FindUser(vs, id) == FindUser(us, id)
    ensures UniqueUsers(us) ==> UniqueUsers(vs)
  {
    forall id ensures FindUser(vs, id) == FindUser(us, id) {
      var a, b := FindUser(us, id), FindUser(vs, id);
      if a.Some? {
        assert vs[a.value].id == id;
      }
    }
    forall id | id in UserIds(us) ensures id in UserIds(vs) {
      var k :| 0 <= k < |us| && us[k].id == id;
      assert vs[k].id == id;
    }
  }

  lemma SameIdsTransitive(us: seq<User>, vs: seq<User>, ws: seq<User>)
    requires SameIds(us, vs) && SameIds(vs, ws)
    ensures SameIds(us, ws)
  {
  }

  lemma AddProfitKeepsIds(us: seq<User>, i: nat, delta: real)
    requires i < |us|
    ensures SameIds(us, AddProfit(us, i, delta))
  {
  }

  lemma AddInvestmentKeepsIds(us: seq<User>, i: nat, delta: real)
    requires i < |us|
    ensures SameIds(us, AddInvestment(us, i, delta))
  {
  }

  lemma UserIdsAppend(us: seq<User>, u: User)
    ensures UserIds(us + [u]) == UserIds(us) + {u.id}
  {
    var vs := us + [u];
    forall id | id in UserIds(us) ensures id in UserIds(vs) {
      var k :| 0 <= k < |us| && us[k].id == id;
      assert vs[k].id == id;
    }
    assert vs[|us|].id == u.id;
  }

  lemma DistributionIdsAppend(ds: seq<Distribution>, d: Distribution)
    ensures DistributionIds(ds + [d]) == DistributionIds(ds) + {d.id}
  {
    var es := ds + [d];
    forall id | id in DistributionIds(ds) ensures id in DistributionIds(es) {
      var k :| 0 <= k < |ds| && ds[k].id == id;
      assert es[k].id == id;
    }
    assert es[|ds|].id == d.id;
  }
}
